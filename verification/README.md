# CardOS, verified

CardOS is a set of apps, written in C, for a small device with a keyboard, a screen, a card and a
radio. This project models the parts of them that are algorithms rather than screens, and proves
what those parts are for. `dafny verify dfyconfig.toml` checks all of it.

Each core is stated twice where the source changes state in place: once as functions on values
(a log, a document, a list of events, a bitmap), about which the properties are proved for every
input and every run, and once as a class with the source's own arrays, counters and loops, every
method of which is shown to do what the function says.

| modules | source | what is proved |
|---|---|---|
| `DateTime` | `apps/datetime.h` | civil dates and day numbers are inverse bijections |
| `PainText`, `PainWords`, `PainLog`, `PainOrder`, `PainStore`, `PainRuns`, `PainHistory`, `PainStats` | `apps/pain_log.h` | a full array and a file together are a log without a limit; the file format; the statistics |
| `CalcLang`, `CalcParse`, `CalcParser`, `CalcTrees`, `CalcText`, `CalcWords`, `CalcCompile`, `CalcGrammar`, `CalcNumerals`, `CalcValues`, `CalcErrors` | `apps/calc.c` | the parser accepts exactly the language, and the compiler is correct on all of it; its programs are safe |
| `EditDoc`, `EditBuffer` | `apps/edit.c` | every key is the plain edit of a flat text; which files come back as they were, exactly |
| `SafeFile` | `apps/safefile.h` | a power cut between any two steps on the card never tears a file |
| `Calendar`, `CalendarFields`, `CalendarRuns`, `CalendarQueue`, `CalendarKnown`, `CalendarCache`, `CalendarRestart`, `CalendarStore` | `apps/calendar.c` | over every run, restarts and all, the offline queue loses no event and pushes the right one; when it pushes or deletes one the server has |
| `Habits`, `HabitsStore`, `HabitsRuns` | `apps/habits.c` | a sliding bitmap and a file keep all of a history |
| `Mines`, `MinesBoard` | `apps/mines.c` | the recursive reveal is reachability; the game is fair |
| `ScreenCodec`, `Screen`, `ScreenDecoder` | `apps/screen.c`, `server/pixels.py`, `server/screen.py` | the panel shows the last picture sent, however the stream is cut |
| `TermLog` | `apps/termlog.h` | word wrap fits and loses nothing |
| `Base64`, `Base64Text` | `apps/b64.h` | the round trip, which texts are encodings and which are refused, exactly, and a 32-bit accumulator that may wrap |
| `Level`, `Url` | `apps/level.c`, `apps/str.h` | the integer square root; percent-encoding |
| `Common`, `Division`, `Str` | `apps/str.h`, `apps/pain_log.h` | C strings, decimal numbers, lines and fields |

## Where the code does less than it seems to

Some properties hold only on a condition. Each is proved with its exact condition, both ways, and
the failing family is the code's own:

- An entry added to a full pain log between its two oldest entries falls below the floor it has just
  raised, and the next save but one writes it twice (`PainHistory.AddExactly`,
  `PainHistory.BetweenTheOldestTwo`). A seq of ten digits is written and cannot be read back (the
  same, and `PainText.ParseOfFormat`).
- Entries with the same key on both sides of what a load keeps: one of them is neither in memory nor
  below the floor (`PainRuns.FloorIsExact`, `PainHistory.TieIsLost`).
- Backspace after an empty continuation piece joins two pieces and deletes nothing
  (`EditDoc.BackspaceDeletes`, `EditDoc.EmptyContinuationKeepsAll`).
- A file whose lines need more than 96 pieces is cut when it is opened, and a save then writes the
  beginning of it over the whole (`EditDoc.LoadThenSave`, `EditDoc.OneLineTooMany`).
- The very first save of a file is not safe from a cut: a half-written temp is taken for the file
  (`SafeFile.FirstSaveIsSafeExactly`).
- An edit made to an event while its own push is in the air is taken off the queue by the answer
  (`CalendarQueue.EditOutlivesExactly`, `CalendarKnown.EditIsLostInTheAir`).
- The comment at `apps/calendar.c:989-999` says that only what has never been pushed can be dropped.
  The code asks only whether the event has an id, and an event's id comes back not with the answer to
  its push but with the fetch after it. When that fetch fails the event is listed with no id: Delete
  takes it, though the server has it (`CalendarKnown.TakenButDeleted`), and saving the form on it
  makes the next sync send it as a second event (`CalendarKnown.TakenButSentAgain`,
  `CalendarKnown.SlipIsSentAgain`). A caller can tell beforehand: the event has no id and is not
  queued (`CalendarKnown.RunKnownExactly`, `CalendarKnown.KnownFromNew`).
- An event whose title starts with a blank does not come back from the cache as it was, and one with
  nothing else in its title is lost (`CalendarCache.LineComesBackExactly`,
  `CalendarRestart.RestartKeepsQueueExactly`, `CalendarRestart.BlankTitleIsNotQueued`).
- A habit's window moved back over dates it does not hold, by a clock set back, loses them at the
  next save (`Habits.MoveThenSaveExactly`, `Habits.UncoveredDateIsLost`); so do dates outside the
  window beyond the 512th (`Habits.SaveCarriesExactly`, `Habits.OneTooMany`). Days that fall out of
  the window past the 65535th are not counted (`Habits.AnchorKeepsTotalExactly`,
  `Habits.CapLosesOne`).

## What is assumed

- The card is a map from names to bytes; removing or renaming a file that is there fails only by a
  power cut, and every start of an app begins with the recovery of `safe_open_read`.
- Pain log runs: the seqs in the file opened are distinct; each change accepted is saved; the seq
  stays below ten digits and no entry falls between the two oldest of a full log (the exact condition
  of `AddExactly`). The limit `max` is any number from 2 up.
- Calculator: the meaning of the float operations is a parameter, and nothing is assumed of it.
- Calendar: what the server answers, whether the radio, the clock and the request queue are ready,
  and when, are inputs of the steps, and so is a restart. Each event carries a `tag`, and a run the
  set of events `known` to be at the server; the source has neither and no step decides anything by
  them. They only let a statement say "the same event" and "the server has it": it has answered the
  event's push with success, or has sent it. A push that fails on the way back is not counted so.
- Habits: the date does not go back, no date in the file is past today at the start, and the dates
  outside the window stay few enough to be kept.
- Mines: `lay` puts ten distinct mines and none on the first cell.
- Numbers are unbounded except where the width matters: Base64's accumulator, the calendar's instants
  and sort key, the months of `dt_civil_from_days`, the tags of the log, the count of days outside a
  habit's window.

## Model

| member | source | states |
|---|---|---|
| DateTime.DateRoundTrip | apps/datetime.h:39-66 | Every date of the proleptic Gregorian calendar, before 1970 too, comes back from its day number. |
| DateTime.DayRoundTrip | apps/datetime.h:39-66 | Every integer is the number of a date, which exists, and comes back from it: with the line above, the two functions are inverse bijections. |
| DateTime.NextDay | apps/datetime.h:26-48 | The day after a date, over the ends of months, years and leap years, has the next number; 1970-01-01 is day 0. |
| DateTime.OrderIsNumberOrder | apps/datetime.h:39-48 | One date is before another exactly when its number is smaller. |
| DateTime.WeekdayAdvances | apps/datetime.h:69-72 | The weekday of any integer, negative ones too, is in 0..6, advances by one modulo 7, and is Thursday on day 0. |
| Str.TsvField | apps/str.h:67-72 | The field found is the kth of the line split at its tabs, cut to the buffer, and empty past the last. |
| Str.FieldsOfAppend | apps/str.h:67-72 | Appending a tab and a plain field to a line adds that field at the end and changes no other. |
| Str.EachLine | apps/pain_log.h:612-631 | The lines handed on are those of the text: CRs dropped, each cut to the line buffer, and a last one without a newline. |
| Str.LinesOfLine | apps/pain_log.h:612-631 | A plain line that fits, written with its newline before any text, is read back whole and first. |
| Str.LinesAreSplit | apps/pain_log.h:612-631 | Those of any text: it is cut at its newlines, its CRs dropped, and each line to 127 characters, nothing after the last newline being no line. |
| PainText.CleanNote | apps/pain_log.h:185-201 | The character loop leaves in its buffer the cleaned note: gaps squeezed to one space, none at either end, at most 31 characters. |
| PainText.CleanIsClean | apps/pain_log.h:185-201 | Cleaning always gives a clean note and is idempotent; its fixed points are exactly the clean notes. |
| PainText.Make | apps/pain_log.h:233-245 | An entry is made exactly when the day, level and area are in range, and is then one the log can hold. |
| PainText.MakeKeepsParts | apps/pain_log.h:233-245 | The entry made has the day, level and area given and the note cleaned; its time is the one given, or none when there is no day or the time is none of a day's; and made again from its own parts it is the same entry. |
| PainText.PutDecimal | apps/pain_log.h:478-484 | A 32-bit number goes into the buffer in decimal, and nothing before it changes. |
| PainText.Format | apps/pain_log.h:488-519 | The line of any valid entry is built in its 80 bytes with room for the newline and the NUL. |
| PainText.LineFits | apps/pain_log.h:488-519 | The line of a valid entry with a 32-bit seq is within the buffer that formats it. |
| PainText.AreaFromName | apps/pain_log.h:158-167 | A word is its area whatever its case, and "other" if it is no area. |
| PainText.PainNum | apps/pain_log.h:523-530 | The n characters from an offset as a number, or -1 when one is missing or not a digit. |
| PainText.PainDec | apps/pain_log.h:533-542 | A field of one to nine digits as a number; anything else is -1. |
| PainText.ParseOfFormat | apps/pain_log.h:488-604 | The line of a valid entry, dated or not, timed or not, reads back as that entry exactly when its seq has at most nine digits. |
| PainText.ParsedIsValid | apps/pain_log.h:577-604 | Whatever line is read as an entry, the entry is valid, its note clean, its date real, its seq below ten digits. |
| PainWords.NoteKeepsWords | apps/pain_log.h:185-201 | A cleaned note is the words of the text with one blank between them: all of them when that is at most 31 characters, else as much as fits and does not end in a blank. |
| PainWords.AreaOfWord | apps/pain_log.h:158-167 | "cramps", "back" and "head" in any case are areas 0, 1 and 2, and any other word is 3. |
| PainWords.DaysReadExactly | apps/pain_log.h:545-559 | A field is read as a day if and only if it is a dash, for none, or the digits 4-2-2 of a real date after 1970-01-01, and then it is that date's number. |
| PainWords.TimesReadExactly | apps/pain_log.h:562-573 | A field is read as a time if and only if it is a dash, for none, or an hour of one or two digits and minutes of two, of a day. |
| PainWords.SeqsReadExactly | apps/pain_log.h:577-604 | A seq is read if and only if it is one to nine digits or is not there, and then is 0. |
| PainWords.LinesAsWritten | apps/pain_log.h:488-519 | The lines of two entries, character by character: 2024-10-04 at 09:05, and one with no day. |
| PainLog.UpperUnique | apps/pain_log.h:275-284 | In a sorted log the place before which no entry is later than a key is unique. |
| PainOrder.SortedByDayMinuteSeq | apps/pain_log.h:217-223 | What the log keeps sorted is in order of day, then of minute, no time being 0xFFFF and so last, then of seq. |
| PainLog.InsertSorted | apps/pain_log.h:293-298 | Inserting an entry at that place keeps the log sorted. |
| PainLog.InsertContents | apps/pain_log.h:293-298 | Inserting adds that entry and no other, and loses none. |
| PainLog.RemoveContents | apps/pain_log.h:286-290 | Removing takes out that entry and no other. |
| PainStore.Store.Upper | apps/pain_log.h:275-284 | The binary search finds that place. |
| PainStore.Store.RemoveAt | apps/pain_log.h:286-290 | The shifting loop removes one entry and keeps the rest in order. |
| PainStore.Store.InsertAt | apps/pain_log.h:293-298 | The shifting loop puts an entry at its place and keeps the rest in order. |
| PainStore.Store.InsertSorted | apps/pain_log.h:275-298 | Search and insertion together leave the entry at the index given, after all that are not later, in a log in order of day, minute and seq. |
| PainStore.Store.RaiseFloor | apps/pain_log.h:302-308 | The floor becomes the key of the oldest entry in memory; with none it stays. |
| PainStore.Store.Add | apps/pain_log.h:321-338 | The array, the fields and the answer are those of the add on the log as a value: refused, too old, full with the oldest retired, or inserted; the log is in order of day, minute and seq, and the index is that of the entry with the next seq. |
| PainStore.Store.Edit | apps/pain_log.h:344-356 | An edit keeps the seq and moves the entry to its place in that order, or changes nothing and answers why. |
| PainStore.Store.SetNote | apps/pain_log.h:359-363 | Only the note of that entry changes, and it is cleaned. |
| PainStore.Store.Delete | apps/pain_log.h:366-370 | That entry goes; a bad index changes nothing. |
| PainOrder.AddIsInOrder | apps/pain_log.h:321-338 | In the fields themselves: refused as wrong exactly for a day, level or area out of range; as too old exactly when it is earlier than the floor or than the first of a full log; otherwise the entry asked for, with the next seq, is at the index answered, after every entry not later and before every later one, and of a full log the first has gone, earlier than none that is kept. |
| PainOrder.EditIsInOrder | apps/pain_log.h:344-356 | The same of an edit: the entry with its new parts and its own seq is at the index answered, in order among the others, which are unchanged. |
| PainOrder.NoteAndDelete | apps/pain_log.h:359-370 | An index that is none changes nothing and answers -1; else the note of that entry alone is the text cleaned, or that entry alone goes, and the order is kept. |
| PainOrder.ADayInOrder | apps/pain_log.h:302-338 | A log of two, given 10:00, then 09:00, then no time on one day: the second goes to index 0, the third to the end as the earliest retires. |
| PainStore.Store.TakeLine | apps/pain_log.h:635-647 | A line is passed over when blank, counted when unreadable, and otherwise taken with the oldest falling out of a full log. |
| PainStore.Store.Load | apps/pain_log.h:651-660 | The whole load, into a log in whatever state: from the text that recovery finds to the array, the next seq, the counts and the floor. |
| PainStore.Store.Carry | apps/pain_log.h:669-680 | What is written of the old file is exactly its lines whose entries are below the floor, as formatted. |
| PainStore.Store.Save | apps/pain_log.h:685-711 | The text written is the carried lines and then the entries in memory, in order. |
| PainRuns.LoadKeepsNewest | apps/pain_log.h:635-660 | From lines in any order: memory is the `max` largest keys in order, `older` the number left out, the next seq above every one read, and the floor the oldest kept. |
| PainOrder.LoadIsInOrder | apps/pain_log.h:635-660 | In the fields themselves: what a load keeps is in order of day, minute and seq; it and as many as `older` counts are the entries of the file, none left out later than any kept; the floor is the first kept; and `skipped` counts the lines neither blank nor readable. |
| PainRuns.FloorIsExact | apps/pain_log.h:302-308 | When a load leaves entries out, the lines below its floor are exactly those entries if and only if no key is on both sides of the boundary. |
| PainHistory.TieIsLost | apps/pain_log.h:651-711 | The failing case: a file with two entries of one key, loaded into a log of two; the next save leaves one of them out. |
| PainRuns.CarriedLines | apps/pain_log.h:669-680 | Carrying lines across is saving the entries below the floor. |
| PainRuns.SaveWrites | apps/pain_log.h:685-711 | A save writes the entries below the floor as they were on the card, then those in memory. |
| PainRuns.SavedIsReadBack | apps/pain_log.h:685-711 | Reading a saved file gives the entries written, but for those whose seq has ten digits. |
| PainHistory.SaveEstablishes | apps/pain_log.h:685-711 | Once memory is at or above the floor and the lines below it are the rest, a save leaves the card holding the whole log and both halves apart. |
| PainHistory.AddKeeps | apps/pain_log.h:321-338 | An accepted add and its save put one entry in the reference log and keep memory and card in step. |
| PainHistory.EditKeeps | apps/pain_log.h:344-356 | So does an edit, which replaces the entry at that index and keeps its seq. |
| PainHistory.NoteKeeps | apps/pain_log.h:359-363 | So does changing a note. |
| PainHistory.DeleteKeeps | apps/pain_log.h:366-370 | So does a delete, of that entry alone. |
| PainHistory.SaveKeeps | apps/pain_log.h:685-711 | Saving an unchanged log again changes nothing on the card but the order of its lines. |
| PainHistory.ReloadKeeps | apps/pain_log.h:651-660 | A restart in the middle of a run keeps them in step. |
| PainHistory.LoadEstablishes | apps/pain_log.h:651-660 | Opening the log on any file whose entries have distinct seqs starts them in step. |
| PainHistory.AddExactly | apps/pain_log.h:321-338 | After an accepted add and a save the card holds the whole log if and only if the seq has at most nine digits; after one more save it still does if and only if, besides, the entry did not fall between the two oldest of a full log. |
| PainHistory.BetweenTheOldestTwo | apps/pain_log.h:302-711 | Its failing case: days 1 and 3 in a full log of two, an entry for day 2; after the first save the card holds the three, after the second the new one twice. |
| PainHistory.RunsRefineTheUnboundedLog | apps/pain_log.h:302-711 | Over every run of adds, edits, notes, deletes, saves and restarts from any file with distinct seqs, the file holds, entry for entry, what a log without a limit would. |
| PainStats.StatsCalc | apps/pain_log.h:392-427 | The one pass gives the definitions over sets: how many days, how many bad ones, the latest day the worst level was reached, the mean rounded to tenths. |
| PainStats.CountedAre | apps/pain_log.h:388-408 | What is counted is each entry of a day in the range, both ends in it, and those of no day if asked for, as often as it is in the log. |
| PainStats.MeanIsOne | apps/pain_log.h:426-426 | There is one such mean, within half a tenth of the true one, halves up. |
| PainStats.DailyMax | apps/pain_log.h:444-455 | Each slot is the true maximum of its day, and -1 for a day with nothing on it. |
| CalcLang.RunMachine | apps/calc.c:648-675 | The loop over the 17-slot array gives the value of the program, never indexing outside stack, constants, variables, functions or graphs. |
| CalcLang.StepMachine | apps/calc.c:652-672 | One instruction on the array does to its first `sp` slots what it does to the stack, and no slot past the seventeenth is touched. |
| CalcParse.Compile | apps/calc.c:607-622 | For every string whatever: the parser ends, and a program accepted is safe (no underflow, at most 16 values, every index in range), within its limits, and leaves exactly one value. |
| CalcParse.PExpr | apps/calc.c:595-604 | After an expression without an error there is one value more on the stack, some text has been read, and what was emitted is safe. |
| CalcWords.FirstWordIsLongest | apps/calc.c:489-546 | The word split off is the longest known one that the letters start with; with none it is their first letter, in lower case. |
| CalcParser.Parser.Peek | apps/calc.c:428-431 | Skips the blanks and gives the character after them, or NUL at the end. |
| CalcParser.Parser.Emit | apps/calc.c:435-444 | Appends the instruction, keeps the running depth and its maximum, and fails when the program or the stack would be too big. |
| CalcParser.Parser.EmitNum | apps/calc.c:446-450 | Stores a constant and the instruction that pushes it, or fails when there are sixteen. |
| CalcParser.Parser.PNumber | apps/calc.c:454-477 | Reads digits, a point and an exponent as the function of the rest of the line says, exponent letter and all. |
| CalcParser.Parser.PGroup | apps/calc.c:482-487 | Reads an expression and its closing bracket, and fails when that is missing, at the end of the line too. |
| CalcParser.Parser.Word | apps/calc.c:489-508 | The loop over the function names finds the longest that the letters start with, before "ans", "pi" and single letters. |
| CalcParser.Parser.PName | apps/calc.c:489-546 | A function with its bracket, an answer, a constant, a graph or a variable, with the source's errors. |
| CalcParser.Parser.PPrimary | apps/calc.c:548-559 | A number, a bracket or a name, and the errors for anything else. |
| CalcParser.Parser.PPower | apps/calc.c:561-569 | A primary, its factorials and a power, whose exponent is a whole signed power: to the right. |
| CalcParser.Parser.PUnary | apps/calc.c:571-576 | Signs before a power. |
| CalcParser.Parser.PTerm | apps/calc.c:578-593 | Factors with a sign between them or none; a number may not follow a factor. |
| CalcParser.Parser.PExpr | apps/calc.c:595-604 | Terms added and subtracted to the left. |
| CalcParser.Compile | apps/calc.c:607-622 | The parser on its index, arrays and loops accepts the same lines, with the same programs and errors, as the functions of what is left of the line. |
| CalcTrees.DoEmitsCode | apps/calc.c:435-450 | Emitting a tree in postfix order succeeds exactly when it is within the limits of program, constants and stack, and then appends its code. |
| CalcTrees.CodeRuns | apps/calc.c:648-675 | Running the code of a tree, after any other, pushes the value of the tree and nothing else, for any meaning of the float operations. |
| CalcWords.FnWord | apps/calc.c:489-546 | A run of letters that is a function's name is that function, whatever shorter name it begins with. |
| CalcWords.AnsWord | apps/calc.c:489-546 | "ans" is the last answer, not a variable and two letters. |
| CalcWords.XAndPi | apps/calc.c:371-376 | x and pi are split off whatever letters follow them. |
| CalcWords.LettersAreNames | apps/calc.c:424-426 | Each of the 52 letters alone is the variable of its small letter, and no other character is in a name. |
| CalcWords.LiteralBefore | apps/calc.c:454-477 | A literal is read whole before whatever is neither a digit nor a point, unless that is an e that goes on as an exponent. |
| CalcWords.ProductsRunTogether | apps/calc.c:371-376 | 2x, 2pi, 3(1+2), x sin(x), pix and xsin(x) are the texts of those products. |
| CalcWords.EveryTreeHasAText | apps/calc.c:367-376 | Every tree whose variables are set and graphs on is the tree of some line. |
| CalcCompile.PowerParses | apps/calc.c:561-569 | A text as tight as a power is parsed to its tree: ^ to the right, and below !. |
| CalcCompile.UnaryParses | apps/calc.c:571-576 | A text with signs before it is parsed to its tree: looser than ^, tighter than *. |
| CalcCompile.TermParses | apps/calc.c:578-593 | A product, with a sign or with its factors side by side, and a quotient are parsed to their tree, to the left. |
| CalcCompile.ExprParses | apps/calc.c:595-604 | Any text of the language is parsed to its tree, up to what follows it. |
| CalcCompile.TextCompiles | apps/calc.c:607-622 | A line that is the text of a tree, with any blanks before each token, any brackets, its names in either case and its factors as close as the splitting of words allows, compiles if and only if the tree is within the limits, and then to the tree's code and constants. |
| CalcCompile.CompilerIsCorrect | apps/calc.c:367-675 | For every such line within the limits, compiling it and running the program gives the tree's value under the stated precedence, whatever the float operations mean. |
| CalcValues.LiteralIsWorth | apps/calc.c:456-476 | What a literal is worth in any expression: its first nine significant digits times the power of ten that makes up for the digits dropped, the point and the exponent; infinity above the sixtieth power, and no power below the minus ninetieth. |
| CalcValues.NumberRuns | apps/calc.c:456-675 | So a line that is one number of any length compiles, and running it gives the scaling of those digits by that power. |
| CalcValues.OneAndAHalf | apps/calc.c:454-476 | 1.5 runs to 15 scaled by -1, and 2.5e-3 to 25 scaled by -4. |
| CalcValues.Grouping | apps/calc.c:367-376 | A line of three digits and any two signs runs to the second operation inside the first if the second sign binds tighter or both are powers, and else to the first inside the second. |
| CalcValues.SignsByName | apps/calc.c:367-376 | 1-2-3, 2^3^2, 1+2*3 and 8/4*2, down to the float operations by name. |
| CalcValues.SignsAndBangs | apps/calc.c:561-576 | -x^y is -(x^y), x^-y is x^(-y) and x^y! is x^(y!), for any digits. |
| CalcValues.CallsByNumber | apps/calc.c:378-385 | sin(x), cos(x), and so on to round(x), run to functions 0 to 13 of x. |
| CalcGrammar.AcceptedIsText | apps/calc.c:433-646 | Conversely, every line that compiles is the text of a tree, to its end: the tree and the text are built from the parser's own steps. |
| CalcGrammar.AcceptsExactly | apps/calc.c:367-646 | So a line compiles if and only if it is the text of a tree within the limits. |
| CalcGrammar.AcceptedRuns | apps/calc.c:367-675 | And what running any line that compiles gives is the value of a tree it is the text of. |
| CalcErrors.LeftOver | apps/calc.c:607-622 | After a whole expression: a closing bracket, a second equals sign or any other character is refused by its own error. |
| CalcErrors.OperatorMissing | apps/calc.c:578-593 | A number straight after a factor is refused for its missing operator. |
| CalcErrors.NothingThere | apps/calc.c:607-622 | A line of blanks has nothing to work out. |
| CalcErrors.FunctionAlone | apps/calc.c:489-546 | A function with no bracket after it is refused by its number. |
| CalcErrors.VariableNotSet | apps/calc.c:489-546 | So is a variable that is not set, by its letter. |
| CalcErrors.GraphRefused | apps/calc.c:489-546 | y that is no graph, a graph inside a graph and a graph that is off have each their error. |
| CalcErrors.BadStart | apps/calc.c:548-559 | A lone point, a closing bracket or a character that starts no operand, where the line starts. |
| CalcErrors.NotClosed | apps/calc.c:482-487 | A bracket whose expression is not followed by its closing one. |
| CalcErrors.EndsAfterSign | apps/calc.c:548-559 | A line that ends after a plus or a minus is unfinished. |
| CalcCompile.DefiningKeepsMemory | apps/calc.c:1111-1123 | A graph that compiles may be stored: its program calls no graph, so running goes at most one program deep. |
| CalcCompile.NoGraphs | apps/calc.c:524-540 | No program compiled for a graph holds an OP_Y. |
| CalcNumerals.ScanKeepsNine | apps/calc.c:454-477 | A digit more, before or after the point, keeps the mantissa the first nine significant digits and counts the rest in the exponent. |
| CalcNumerals.NumeralKeepsNine | apps/calc.c:454-477 | A number of any length, with a point or without, with an exponent of any length or none, is read whole: the mantissa is its digits without those past the ninth significant one, and the power of ten makes up for them, for the point and for the exponent, which is exact below 10000 and at least 1000 above. |
| EditDoc.FlatIsBeforeAfter | apps/edit.c:101-138 | The text before the cursor and the text after it, over all the pieces, are the document. |
| EditDoc.SplitIsFlat | apps/edit.c:144-156 | A soft split adds nothing to the document and removes nothing. |
| EditDoc.TypingInserts | apps/edit.c:302-317 | Typing puts one character before the cursor; with no room the document is unchanged. Widths, cursor and the last line stay sound. |
| EditDoc.CutsAtTheLastBlank | apps/edit.c:144-156 | A full line is cut after its last blank that is neither its first nor its last character, and with none before its last character. |
| EditDoc.TypingCuts | apps/edit.c:302-317 | Typing into a full line cuts it there and puts the character into the part the cursor is in: the pieces and the cursor in full. |
| EditDoc.EnterSplits | apps/edit.c:319-348 | Enter changes nothing when every piece is taken. Else, k being how many blanks the cursor's piece starts with as far as the cursor, the line ends there and the cursor is at column k of a new one, after k blanks and before the rest: for which there is always room, so the test for it at line 336 never fails. |
| EditDoc.EnterKeepsTheIndent | apps/edit.c:334-345 | Enter at the end of "  ab" gives a second line of two blanks with the cursor at column 2. |
| EditDoc.BackspaceDeletes | apps/edit.c:350-379 | Backspace deletes exactly the character or newline before the cursor if and only if the stated condition holds; otherwise the text is unchanged. |
| EditDoc.EmptyContinuationKeepsAll | apps/edit.c:350-370 | A failing case, from the keys typed into a blank document: after an empty continuation piece Backspace joins two pieces and deletes nothing. |
| EditDoc.PressKeeps | apps/edit.c:1054-1081 | Every key keeps the pieces, the cursor and the last line sound, and the keys that move change no text. |
| EditDoc.EveryKeyIsThePlainEdit | apps/edit.c:302-379 | After any run of keys, the next key does to the flat document what a plain editor with the same room would do at the cursor, Enter with the blanks that the cursor's piece starts with. |
| EditDoc.LeftAndRight | apps/edit.c:1054-1081 | Left and Right go one character back and on in the flat text, over newlines, stay at its two ends, and between a piece and its continuation change the piece alone. |
| EditDoc.ThereAndBack | apps/edit.c:1054-1081 | Left then Right comes back unless Left did nothing, and Right then Left so. |
| EditDoc.UpAndDown | apps/edit.c:1054-1081 | Up then Down comes back if and only if the line above reaches the cursor's column, and Down then Up so. |
| EditDoc.RowsAndEnds | apps/edit.c:1054-1081 | Up, Down, Home and End go to the line above or below, at the cursor's column or the shorter line's end, and to the two ends of the line. |
| EditDoc.LoadKeepsText | apps/edit.c:160-211 | A load reports a whole text if and only if the text is printable and the pieces its lines need, each cut where a full piece is cut, are at most 96; it then holds all of the text, and otherwise a proper beginning of it. |
| EditDoc.NotTextExactly | apps/edit.c:170-211 | A load says the file is not text if and only if it reaches a byte that is not: all before that byte is text and has room. |
| EditDoc.LoadThenSave | apps/edit.c:144-288 | Opening a file and saving it writes back its text, CRs dropped and tabs as two spaces, if and only if the file is text and its lines need at most 96 pieces; and its very bytes if and only if, besides, it has no CR and no tab. Otherwise it writes a beginning of the text, or nothing. |
| EditDoc.ShortLinesComeBack | apps/edit.c:144-288 | So every text of at most 96 lines of at most 64 columns comes back. |
| EditDoc.OneLineTooMany | apps/edit.c:170-211 | A file of 96 newlines does not. |
| EditBuffer.Editor.OpenLine | apps/edit.c:115-128 | Rows shift down by one and row y is empty; with none to spare nothing changes. |
| EditBuffer.Editor.CloseLine | apps/edit.c:130-138 | Row y goes and the rest shift up. |
| EditBuffer.Editor.SoftSplit | apps/edit.c:144-156 | A full row gives what follows its last space to a new row: the split of the document, on the arrays. |
| EditBuffer.Editor.LoadPut | apps/edit.c:160-168 | One character onto the last row, split first if it is full. |
| EditBuffer.Editor.InsertChar | apps/edit.c:302-317 | The pieces and the cursor are those of typing on the document. |
| EditBuffer.Editor.SplitLine | apps/edit.c:319-348 | The pieces and the cursor are those of Enter on the document. |
| EditBuffer.Editor.JoinPrev | apps/edit.c:350-370 | The pieces and the cursor are those of joining the rows. |
| EditBuffer.Editor.Backspace | apps/edit.c:372-379 | The pieces and the cursor are those of Backspace on the document. |
| EditBuffer.Editor.Load | apps/edit.c:170-211 | The rows are those of loading the text as a document, with the same report of what was cut. |
| EditBuffer.Editor.Save | apps/edit.c:255-288 | The bytes written are the flat document. |
| SafeFile.OpenRead | apps/safefile.h:42-51 | The file; failing that its temp, which is renamed to it first; failing that nothing. |
| SafeFile.SafeFile.constructor | apps/safefile.h:54-61 | The temp is made empty, or nothing is when the card does not open it; no other file changes. |
| SafeFile.SafeFile.Write | apps/safefile.h:63-66 | The bytes are appended to the temp, if there is one open; a short write spoils the save and nothing more is written. |
| SafeFile.SafeFile.Commit | apps/safefile.h:76-84 | The temp becomes the file, or goes and leaves the old file if a write came up short; with none open the answer is -1 and nothing changes. |
| SafeFile.SaveAll | apps/safefile.h:54-84 | A whole save of any number of writes: their contents in the file and no temp if and only if the temp was opened and each write was taken; else the old file as it was; no other file is touched. |
| SafeFile.PathFitsExactly | apps/safefile.h:54-61 | A save goes to the file it was asked for exactly when its path is shorter than the buffer. |
| SafeFile.TempIsBeside | apps/safefile.h:54-61 | The temp of a path under 80 characters is that path and .tmp, whole; that of a longer one is cut to 83. |
| SafeFile.StepKeeps | apps/safefile.h:42-84 | After every single step on the card, cuts included, there is one whole version: in the file, or in a finished temp with the file gone. |
| SafeFile.CutsNeverTear | apps/safefile.h:42-84 | Over every run of recoveries and saves with the power cut between any two steps, the next read is the whole of the last committed save or of the one under way, never a mixture, a prefix or nothing. |
| SafeFile.CommitPoint | apps/safefile.h:76-84 | What a restart finds changes at one step only, the removal of the old file: before it the old contents, from it on the new. |
| SafeFile.UncutSave | apps/safefile.h:54-84 | Uncut, the steps come to what the calls do. |
| SafeFile.CutAtIsRun | apps/safefile.h:54-84 | k steps into an uncut save the card is: the temp with the first bytes, then the temp alone, then the file. |
| SafeFile.FirstSaveIsSafeExactly | apps/safefile.h:42-84 | A cut anywhere in a save leaves the old contents or the whole new ones if and only if the file was there before it or the save is of nothing. |
| Calendar.SortIsStable | apps/calendar.c:376-386 | The sort leaves the events in order of their key, the same events, and those of one key in the order they were. |
| Calendar.SortOfOrdered | apps/calendar.c:376-386 | A list in order is left as it is. |
| CalendarFields.InLocalOrder | apps/calendar.c:346-348 | In order of that key is in order of local start, an all-day event starting at its day's midnight and a start of 2^31 or more being before 1970. |
| CalendarStore.Store.SortEvents | apps/calendar.c:376-386 | The insertion loop on the array is that sort. |
| CalendarStore.Store.Find | apps/calendar.c:519-524 | The first index with the property, or -1: the loops of next_dirty, sending_index, editing_index and asking_index. |
| CalendarStore.Store.MarkTheSending | apps/calendar.c:527-531 | Event i is marked as being sent and every other mark is cleared. |
| CalendarStore.Store.HasKeptId | apps/calendar.c:614-619 | Whether one of the first events has that id. |
| CalendarStore.Store.KeepQueued | apps/calendar.c:629-634 | The compaction leaves exactly the events still queued, in their order. |
| CalendarStore.Store.TakeReply | apps/calendar.c:636-663 | After them come the events of the reply, up to its end, a short line, or forty. |
| CalendarStore.Store.AbsorbReply | apps/calendar.c:624-676 | The two and the sort: the list after a fetch, which is then in the cache file. |
| CalendarStore.Store.Begin | apps/calendar.c:718-772 | The list, the stage, the clock and the request sent are those of sync_begin on the value, whether or not the radio, the clock or the request queue are ready. |
| CalendarStore.Store.Tick | apps/calendar.c:775-842 | So for every answer in every stage: failures, edits refused for good, the next push, the fetch. The cache file is the list after a push is settled or a fetch absorbed, and otherwise untouched. |
| CalendarFields.PushSendsTheFirst | apps/calendar.c:519-579 | The request accepted, what is sent is the id, title, start, end and kind of the first event that is queued and not deleted, and it alone is marked; with none, the fetch. |
| CalendarFields.BeginsWhen | apps/calendar.c:718-772 | A sync begins if and only if none is running, the network is up, and the clock was set or has come, whose offset it then takes. |
| CalendarFields.PushAnswered | apps/calendar.c:775-842 | A push taken, or an edit refused with 404, 410 or 400, takes that event off the queue and the sync goes on; any other failure leaves the list as it is and ends the sync. |
| CalendarFields.FetchedParts | apps/calendar.c:636-663 | The event of a reply's line, part by part, and when it is listed: it has an id, cut to 15 characters, that no queued event has, and a start. |
| CalendarStore.Store.AddEvent | apps/calendar.c:873-893 | An event is added, queued, sorted in and in the cache file, unless there are forty; then nothing changes. |
| CalendarStore.Store.OpenForm | apps/calendar.c:896-914 | The form is on that event and no other; with no such event nothing changes. |
| CalendarStore.Store.SaveForm | apps/calendar.c:926-946 | The event the form is on is changed, keeps its length, is queued and in the cache file; if it has gone the answer is -1 and the file untouched. |
| CalendarFields.AddIsOnTime | apps/calendar.c:873-893 | For any zone offset: with fewer than forty events there is one more, unknown to the server and queued, whose start in local time is the day, hour and minute asked for, and whose end is an hour on, all modulo 2^32, its title the first 34 characters with quotes and backslashes as apostrophes; with forty nothing changes and the answer is -1. |
| CalendarFields.NineIsEightInGreenwich | apps/calendar.c:884-886 | Day 20000 at 9:00 with an offset of 3600 starts at 1728028800. |
| CalendarFields.EditIsOnTime | apps/calendar.c:926-946 | For any zone offset: the first event the form is on starts in local time at the form's day, hour and minute, or, all-day, at the day whatever the zone, and is as long as it was; its title is the form's and nothing else about it or any other event changes. |
| CalendarFields.NothingToEdit | apps/calendar.c:926-946 | When the event has gone the answer is -1 and only the form is shut. |
| CalendarFields.FormOpensOn | apps/calendar.c:896-914 | The form opens on any event there is that is not deleted, marks it alone and keeps its id; else nothing changes. |
| CalendarFields.FormSavesWhenDone | apps/calendar.c:956-970 | Saving the form writes the cache if and only if it has a title and the add or the edit answers 0. |
| Calendar.EditKeepsLength | apps/calendar.c:926-946 | An edit keeps the event's length, to the second modulo 2^32, and which event it is, and queues it. |
| CalendarStore.Store.Ask | apps/calendar.c:1000-1008 | Only an event that has no id and is not being sent is asked about. |
| CalendarStore.Store.Delete | apps/calendar.c:1011-1028 | The event asked about goes, from the list and the cache file, if it still has no id and is not being sent. |
| CalendarFields.AsksAbout | apps/calendar.c:1000-1008 | An event with no id that is not being sent is asked about, and no other then is; any other changes nothing. |
| CalendarFields.DeletesTheAsked | apps/calendar.c:1011-1028 | The first event asked about goes if and only if it has no id and is not being sent; the rest stay, in order, and nothing is asked about any more. |
| CalendarStore.Store.CacheSave | apps/calendar.c:440-454 | The cache file is a line an event, in order. |
| CalendarStore.Store.CacheLoad | apps/calendar.c:465-505 | The events of the lines that can be read, up to forty, sorted. |
| CalendarRuns.StepKeeps | apps/calendar.c:718-1028 | Every key, tick, answer and restart keeps the invariant: at most forty events, at most one marked as being sent, while a push is in the air it is the one pushed, and the card holds a list that a restart reads as it would the one on screen. |
| CalendarRuns.AbsorbedEvents | apps/calendar.c:624-676 | After a fetch the queued events are those queued before, unchanged, and every other one came from the reply with an id no queued event has. |
| CalendarQueue.PushKnowsItsEvent | apps/calendar.c:718-842 | At any moment of any run: with a push in the air exactly one event is marked, the search finds it, it is the one the request was made for, and it is still queued; with a fetch in the air none is. |
| CalendarQueue.StepIsNextQueue | apps/calendar.c:718-1028 | The queue is a plain set of events: whatever is sorted, compacted or marked under it, each step changes it only as an add, an edit, the answer to that event's own push, its confirmed delete or what a restart reads of it do. |
| CalendarQueue.NothingIsLost | apps/calendar.c:718-1028 | An event queued at some point of a run, restarts and all, and not at its end had its own push answered on the way, or was confirmed deleted while it had no id, or has a cache line that gives nothing back. |
| CalendarQueue.EditOutlivesExactly | apps/calendar.c:811-817 | An edit saved while a push is in the air is still queued after the answer if and only if the push was of another event. |
| CalendarKnown.EditIsLostInTheAir | apps/calendar.c:811-817 | The failing run: an event added, the form opened on it, a sync begun, the form saved; the answer takes the edit off the queue unsent. |
| CalendarKnown.StepKnownExactly | apps/calendar.c:718-1028 | While it is so that the server has an event exactly when the event has an id or is not queued, a step keeps it so if and only if it is not a save of the form on an event with no id that is not queued, nor a restart that loses the id of a queued one. |
| CalendarKnown.RunKnownExactly | apps/calendar.c:718-1028 | So over any run: it is so at every moment if and only if no step is one of the two. |
| CalendarKnown.KnownFromNew | apps/calendar.c:718-1028 | From a new card, over any run without such a step: no push that makes a new event is of one the server has, and a confirmed delete is of one it has if and only if the event is not queued. |
| CalendarKnown.SlipIsSentAgain | apps/calendar.c:916-977 | After such a save with no sync under way, the next sync left alone sends the server as new an event it has. |
| CalendarKnown.TakenButDeleted | apps/calendar.c:989-1028 | The run that shows it: an event pushed and taken, the fetch after it failing; it is listed with no id, and Delete takes it. |
| CalendarKnown.TakenButSentAgain | apps/calendar.c:916-1028 | Opened and saved in that state it is queued again: the next sync pushes it as a new event, and Delete takes a queued event that the server has. |
| CalendarQueue.FetchKeepsQueued | apps/calendar.c:624-676 | After a fetch the list is in order, at most forty long, has every queued event unchanged, and no second copy of one beside it. |
| CalendarQueue.EveryLineIsListed | apps/calendar.c:636-663 | Every usable line of the reply for which there is sure to be room is listed as it came, unless an edit of that event is queued. |
| CalendarQueue.SyncEmptiesTheQueue | apps/calendar.c:718-842 | A sync nothing disturbs pushes every unsent event once, in the order of the list, then fetches; and at the end nothing is queued and the list is the reply's. |
| CalendarCache.LineComesBackExactly | apps/calendar.c:440-505 | An event comes back from its cache line as it was if and only if its title starts with something other than a blank and its id has no blank and is not a lone dash. |
| CalendarCache.ListedAgainExactly | apps/calendar.c:440-505 | An event whose id has no blank is listed again if and only if its title is not all blanks: without the blanks before the title, and with its id unless that is a lone dash. |
| CalendarCache.BlankTitleIsLost | apps/calendar.c:440-505 | An event named with one blank is accepted by the form and gone after a restart. |
| CalendarCache.LineFits | apps/calendar.c:440-454 | No line is cut by its buffer. |
| CalendarCache.LinesAsWritten | apps/calendar.c:440-454 | The lines of two events, character by character. |
| CalendarCache.CacheComesBack | apps/calendar.c:440-505 | A saved list in order comes back event for event, unsent ones unsent, when every line does. |
| CalendarCache.RestartIsReread | apps/calendar.c:440-505 | What is read from the file of any list is that list, each event as its own line gives it back, sorted. |
| CalendarRestart.RestartReadsTheCard | apps/calendar.c:436-509 | At any moment of any run, what the app lists when next opened is what it reads from the file it last wrote. |
| CalendarRestart.RestartKeepsQueueExactly | apps/calendar.c:436-509 | A restart at any moment of a run leaves the queue as it was if and only if every queued event has a title that starts with something other than a blank and an id with no blank that is not a lone dash. |
| CalendarRestart.BlankTitleIsNotQueued | apps/calendar.c:436-509 | The failing run: an event named with one blank, and a restart. |
| Habits.YmdComesBack | apps/habits.c:133-150 | Every day in the years 1900 to 9999 comes back from its eight digits. |
| Habits.ParsedIsWritable | apps/habits.c:133-144 | Whatever eight digits are taken for a date, the 31st of a short month too, the day is one a save can write. |
| Habits.DatesReadExactly | apps/habits.c:133-144 | A line is a date if and only if it starts with the eight digits of one, days up to 31 in any month, from 1900 on, and no ninth; then it is that date's number. |
| Habits.DateAsWritten | apps/habits.c:146-150 | Day 20000 is written 20241004. |
| Habits.FebruaryRunsOver | apps/habits.c:133-144 | 20240231 is read as the second of March. |
| Habits.WrittenDaysAreRead | apps/habits.c:333-338 | The days written are the days the next read finds, in order. |
| Habits.SlideCounts | apps/habits.c:186-205 | Moving the window on or back, by any number of days, counts each marked day once: in the new bitmap or out of it. |
| Habits.AnchorKeepsTotalExactly | apps/habits.c:186-205 | The total shown is the same after the window moves if and only if the days outside it still fit sixteen bits. |
| Habits.CapLosesOne | apps/habits.c:186-205 | A failing case: one mark falls out with the count at its cap. |
| Habits.SavedInOrder | apps/habits.c:342-360 | A save leaves dates in ascending order whatever the file was: those kept, and the marked days. |
| Habits.SaveCarriesExactly | apps/habits.c:342-360 | A save carries over every date outside the window if and only if there are at most 512. |
| Habits.OneTooMany | apps/habits.c:342-360 | A failing case: of 513 dates before the window the last is not carried. |
| Habits.SavedAscends | apps/habits.c:342-360 | With no date twice in the file before, there is none twice after. |
| Habits.MoveThenSaveExactly | apps/habits.c:186-360 | Moving the window and saving loses no date if and only if the new window covers no date of the file that the old one did not: which a clock going forward never does. |
| Habits.UncoveredDateIsLost | apps/habits.c:186-360 | A failing case: a window anchored 200 days ahead and moved back over a date of the file. |
| HabitsStore.WithBit | apps/habits.c:176-182 | Setting or clearing a bit of a byte changes that bit and no other. |
| HabitsStore.Habit.IsDoneOn | apps/habits.c:169-174 | The bit of that day, and false outside the window. |
| HabitsStore.Habit.SetDoneOn | apps/habits.c:176-182 | Only that day's mark changes. |
| HabitsStore.Habit.Anchor | apps/habits.c:186-205 | Every bit moves to its place in the new window, or is counted outside up to the cap. |
| HabitsRuns.WindowEndsToday | apps/habits.c:187-187 | The window is today and the 370 days before it. |
| HabitsStore.Habit.Load | apps/habits.c:286-295 | The marks are the file's dates in the window, one twice being one, and the rest are counted. |
| HabitsStore.Habit.Keep | apps/habits.c:325-352 | The dates of the file outside the window, up to 512, sorted in place. |
| HabitsStore.Habit.SaveLog | apps/habits.c:342-360 | The text written is the kept dates before the window, the marked days and the kept dates after it. |
| HabitsStore.Habit.Toggle | apps/habits.c:457-465 | The day is flipped and the file written, or, with no clock, a day out of range or a card that says no, neither changes. |
| HabitsStore.Habit.RunBack | apps/habits.c:210-214 | The number of days in a row done that end on a day: those are done and the one before is not. |
| Habits.RunIs | apps/habits.c:210-214 | That is: the day, the day before, and so on are done that many times and then not; no two numbers are both such a count. |
| HabitsStore.Habit.Streak | apps/habits.c:218-220 | The run ending today if today is done, else the run ending yesterday. |
| HabitsStore.Habit.BestStreak | apps/habits.c:222-229 | There is a run that long and none longer. |
| HabitsStore.Habit.TotalDone | apps/habits.c:231-235 | The days outside and the marks. |
| HabitsRuns.StepKeeps | apps/habits.c:186-465 | A mark, a midnight or a restart keeps file, bitmap, count and history in step. |
| HabitsRuns.HistoryIsKept | apps/habits.c:186-465 | Over any run of marks, refused saves, midnights and restarts with the clock going forward, the file holds exactly the days marked over all time, ascending, memory exactly those in the window, and the total is their number up to the cap. |
| HabitsRuns.AnyFileIsSorted | apps/habits.c:342-360 | The first mark saved puts a file edited by hand in order. |
| Mines.FloodedIsFlood | apps/mines.c:143-157 | Showing cells reached from one, it among them, and every neighbour of each that has no mine about it, is showing exactly the cells reachable from it. |
| Mines.FloodHasNoMine | apps/mines.c:143-157 | Digging a cell with no mine shows none. |
| Mines.FloodOfMine | apps/mines.c:143-157 | Digging a mine shows it alone. |
| MinesBoard.Sweeper.Neighbours | apps/mines.c:91-100 | The number of mines in the block of nine, the board's edges minded. |
| MinesBoard.Sweeper.Reveal | apps/mines.c:143-157 | The recursion ends, and shows exactly the hidden, unflagged cells reachable through cells with no mine about them in the position before; it kills exactly when the cell is a hidden, unflagged mine. |
| MinesBoard.Sweeper.CheckWon | apps/mines.c:159-165 | Won when ten cells are hidden. |
| MinesBoard.Sweeper.DigAt | apps/mines.c:167-174 | The game after a dig, the mines laid on the first. |
| MinesBoard.Sweeper.ToggleFlagAt | apps/mines.c:176-184 | The flag and the counter change together, and only on a hidden cell of a game still on. |
| Mines.NineByNine | apps/mines.c:18-19 | The board has 81 cells. |
| Mines.DigDecides | apps/mines.c:167-174 | A dig is fatal if and only if it is on a hidden, unflagged mine, and wins if and only if the cells of the board then shown are exactly those without a mine. |
| Mines.GameIsFair | apps/mines.c:167-184 | Over every game: no mine is shown while alive, the counter is the number of flags, no flag is on a shown cell, a lost game shows one mine, a won one hides exactly the mines. |
| Mines.FirstDigIsSafe | apps/mines.c:105-115 | The first dig is never fatal. |
| Mines.FlagGoesOnAndOff | apps/mines.c:176-184 | A toggle changes the game if and only if it is on and the cell is hidden: the flag goes on or comes off with the counter, nothing else changes, a second toggle undoes it, and a flagged cell cannot be dug. |
| ScreenCodec.EncodeRow | server/pixels.py:61-90 | The server's loop gives the runs and literals of a row. |
| ScreenCodec.FirstPiece | server/pixels.py:61-90 | The bytes of a row, piece by piece: two or more pixels the same as their number less one and the pixel, low byte first; else the pixels up to the next three the same, or 128, after their number and 127. |
| ScreenCodec.RowComesBack | apps/screen.c:79-99 | Whatever the pixels, the decoder makes of the encoder's bytes the row that was encoded, black to its end. |
| ScreenCodec.EncodedLength | server/pixels.py:61-90 | A row of n pixels takes at most 2n + n/128 + 1 bytes. |
| ScreenCodec.RowFits | apps/screen.c:41-41 | So a row of the panel always fits the buffer it is received in. |
| ScreenDecoder.Decoder.DecodeRow | apps/screen.c:79-99 | The loop accepts exactly the payloads that make sense and leaves their row, every write in bounds. |
| ScreenDecoder.Decoder.OnData | apps/screen.c:104-172 | A chunk, taken a piece at a time into fixed buffers, does what its bytes do one by one. |
| Screen.ChunksDoNotMatter | apps/screen.c:104-172 | However the stream is cut into chunks, the rows shown, the frames counted and the decoder's state are those of the whole. |
| Screen.RowIsTaken | apps/screen.c:127-166 | Any row of 1 to 700 bytes is taken whole, and shown where its header says exactly when they decode and the panel has such a row. |
| Screen.FrameIsShown | server/screen.py:110-120 | The changed rows of a picture, sent to a panel that shows the one before, leave it showing this one. |
| Screen.PanelShowsTheLastFrame | apps/screen.c:104-172 | Server and viewer together, for any pictures and any chunks: the panel shows the last picture sent and every frame has been counted. |
| Screen.KeyStopsTheStream | apps/screen.c:127-145 | A key waiting when the nth picture ends stops the stream there, with that picture whole on the panel and nothing after it shown or counted. |
| Screen.BadBytesEnd | apps/screen.c:112-146 | A greeting that is not SCR1, and the header of a row of no bytes or of more than 700, end the stream, with no row shown and no key. |
| TermLog.LinesFit | apps/termlog.h:69-99 | No wrapped line is over 40 columns, and every continuation starts with its indent. |
| TermLog.FitsForty | apps/termlog.h:69-99 | Of any line with any indent: no line over forty columns, and as many blanks before every continuation as the indent says, 13 at most. |
| TermLog.WrapUnwraps | apps/termlog.h:69-99 | With the indents taken off and the dropped blanks put back, the wrapped lines are the line. |
| TermLog.WordsAreKept | apps/termlog.h:69-99 | A break drops at most one blank, and is inside a word only in a full line whose last 27 characters have no blank. |
| TermLog.BreaksAtTheLastBlank | apps/termlog.h:69-99 | A break at a blank is at the last blank of forty columns, past the first thirteen: between it and the fortieth column, now at the start of the next line, there is none. |
| TermLog.ShortIsWhole | apps/termlog.h:69-99 | A line is broken if and only if it has more than forty columns. |
| TermLog.ShownByCharacter | apps/termlog.h:69-99 | A line is shown a tab as a blank and a carriage return not at all, every other character as it is. |
| TermLog.TextLinesAre | apps/termlog.h:102-105 | The lines of a text hold no newline and with one between them are the text. |
| TermLog.WrapLosesNothing | apps/termlog.h:69-99 | All of that for any text and any indent. |
| TermLog.Log.Push | apps/termlog.h:50-62 | The log is the last hundred lines pushed, in order. |
| TermLog.Log.WrapAt | apps/termlog.h:69-99 | The working line never overflows its 41 bytes, every line made is pushed, and what is left is the text after the newline. |
| TermLog.Log.PushText | apps/termlog.h:102-105 | The log ends as the last hundred of the lines it had and those of the text. |
| Base64.EncodeTo | apps/b64.h:24-39 | The buffer holds the base64 of the bytes with its NUL, of length 4*((n+2)/3), or the answer is -1 and nothing is written when it does not fit. |
| Base64Text.EncodesByTable | apps/b64.h:24-39 | Character by character: each is the letter of section 4's alphabet for the next six bits of the bytes, with zeros after the last, or padding where no byte is left. |
| Base64Text.PaddingIs | apps/b64.h:24-39 | Every character is one of A-Z, a-z, 0-9, + and /, but for the padding at the end: none, two or one for lengths of 0, 1 and 2 modulo 3. |
| Base64Text.EncodingsExactly | apps/b64.h:24-39 | A text is the encoding of some bytes if and only if it is fours of those letters, the last perhaps with one or two signs of padding and then zeros for the bits that are over. |
| Base64Text.Ones | apps/b64.h:24-39 | FF FF FF is "////", and FF is "/w==". |
| Base64.DecodeTo | apps/b64.h:54-73 | The bytes in the buffer are those of the text up to the end of its line, or -1 for a bad letter, an impossible length or no room. |
| Base64.WrappingDoesNotMatter | apps/b64.h:54-73 | On any text the 32-bit accumulator gives what one that never wraps would. |
| Base64.BytesComeBack | apps/b64.h:24-73 | Every byte sequence comes back from its base64, and whatever follows the line does not matter, if and only if there is room for it. |
| Base64.SafeLettersToo | apps/b64.h:41-48 | The letters of section 5 of RFC 4648 decode as those of section 4. |
| Base64Text.DecodeFailsExactly | apps/b64.h:54-73 | The line is refused if and only if, blanks, CRs and padding apart, some character of it is no letter of either alphabet, one letter is left after the fours, or its bytes do not fit. |
| Level.Isqrt | apps/level.c:81-91 | For every positive 32-bit v the result r has r*r <= v < (r+1)*(r+1); 0 otherwise. |
| Level.RootIsUnique | apps/level.c:81-91 | There is only one such r. |
| Url.EncodeTo | apps/str.h:85-99 | The buffer holds the encoding of the longest beginning of the string that fits with its NUL, whole escapes only, and that beginning is what decoding it gives. |
| Url.BytesComeBack | apps/str.h:85-99 | Any bytes come back from their encoding. |
| Url.EscapesByTable | apps/str.h:85-99 | Byte by byte: a letter, a digit or one of - . _ ~ as it is, and any other byte as a percent sign and its two digits in capitals. |
| Url.NothingReserved | apps/str.h:85-99 | So every character is one of those or a percent sign with two such digits after it. |

## Left out

- CalcParse.Compile: the source's messages are a datatype of errors; their wording is not modelled.
- EditBuffer.Editor.Load: reads of 512 bytes at a time are one text.
- PainHistory.RunsRefineTheUnboundedLog: failed saves are left out; `SafeFile.SaveAll` says a failed save leaves the old file.
- HabitsStore.Habit.Load: one habit of the up to twenty; adding, renaming, moving and deleting habits, and their file names, are left out.
- MinesBoard.Sweeper.DigAt: where `lay` puts the mines is an input, so that it ends is not shown.
- TermLog.Log.WrapAt: the line buffers of the log are strings of at most 40 characters rather than 41 bytes each; the working line is the array it is.
- Calendar.Sort: the key of an all-day event is taken not to overflow when the zone is subtracted.
- CalendarCache.LoadLine: what cache_load would read past the end of a line shorter than its three flags is taken to be empty.
- CalendarQueue.SyncEmptiesTheQueue: speaks of a list with no event marked deleted, which nothing in the app sets.
- CalendarStore.Store.TakeReply: the lines of a reply come already split at their tabs, with their dates and reminders read (`apps/calendar.c:359-373`, `apps/calendar.c:258-303`).
- CalendarStore.Store.CacheSave: the card takes every write of the cache; what a write cut short or refused leaves is `SafeFile`'s to say.
- CalcGrammar.AcceptsExactly: a line is a C string, with no NUL in it.
- Dates and times of the server's events (RFC 3339) are read outside the model: a date that cannot be read is 0.
- Calendar's reminders, views, printing and selection, and the counters of its status line.
- Everything painted: windows, menus, fonts, layout, damage rectangles, the editor's folding of long lines on screen and its Markdown preview.
- HTTP, WiFi, printing, audio and the console, beyond the steps of Calendar and the chunks of Screen.
- Float arithmetic and its rounding, and how the calculator prints a number.
- Screen's count of bytes when a stream is given up, and the width and height in its header, which the viewer does not look at.
- Todo's synchronisation: it follows the item pushed by its index and a pull overwrites edits made meanwhile, so the claim proved for Calendar is not true of it; its dates are the algorithms of `DateTime` again.
- Reading the framed replies of the friends server, the dashboard's chunked upload, the file browser's sorted index: not part of this model.
- Build, Stocks, Roku, Memo, Counter, Clock, Today, Explorer, Files, Timer and the other small apps: little beyond screens and single branches.
