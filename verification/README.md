# A model of the POP3 server and its monitoring protocol

The server answers POP3 on many connections with one thread. Bytes come in
through `recv`, are parsed into a queue of commands, and the commands are run
one at a time. A command writes its reply into a 512-byte ring buffer, and
`send` takes away as much of that as it likes. RETR and LIST may need more room
than there is; they then yield and are called again on a later event. A second
protocol, over datagrams, lets an administrator change the table of users.

The project has two layers that are tied together by contracts.

**Values.** Each component is a function on values, and the theorems are about
those functions: over every input, every cutting of the input stream, every run
of events, every schedule.

| file | what it is about |
|---|---|
| `Standards` | sizes, C `char` and `int` ranges, decimal text and `atoi` |
| `Stuffing`, `ByteStuff` | the line rule for dots, and the four-state machine that applies it piecemeal |
| `Maildrop` | marks and their counter, the iterator, an open mail |
| `Commands`, `CommandSyntax` | the command table, the resumable parser, its cutting of the stream, the print/parse round trip |
| `Users`, `Login` | the user table, and exclusive login over runs of commands of many connections |
| `LineSyntax` | what any line becomes, well formed or not |
| `Session` | the sequential reference: one command, one session, one whole reply; phases and deletions |
| `Reading`, `Listings`, `Replies` | a client that knows only the protocol: lines, numbers, responses; what the replies tell it, and that it can take them apart |
| `ClientModel` | a connection as the event loop drives it: yields, room left, partial sends |
| `Yielding`, `EndMarker`, `Invocation` | one call of a handler compared with the reference |
| `System`, `EndToEnd`, `Progress`, `OpenFiles` | runs: the invariant, the output stream, pipelining, deletions, termination, closing after QUIT, open files |
| `Connections` | the whole server: events of all slots and datagrams over one user table, as moves of `Login` |
| `Mp3pAutomaton`, `Mp3pGrammar` | the datagram recogniser and the grammar it accepts |

**Objects.** The classes and methods of `ByteStuff`, `CircularBuffer`,
`MailsCache`, `CommandParser`, `Users`, `Clients`, `PopFunctions`, `Server`,
`EventLoop` and `Mp3p` have the source's fields, loops and updates in place;
only the chain of tests of `parseMp3pCharacter` is a function that the method
`Advance` calls, and the fields of a datagram are strings that the copying loops
build, with the sizes of the arrays checked at the end. Each method's contract says which value function it computes, and what
it leaves alone. `EventLoop.HandleClient` is the body of the event loop: it
takes the objects of a connection through exactly the states of
`System.Apply`, so what is proved of runs holds of the objects.

## What turned out not to hold

The code is modelled as it is. Where it misses what it is for, the exact
condition is proved, with an input that shows the failure:

- Only a line that is a lone dot (before CR or the end of the mail) is stuffed.
  Framing is safe for every mail, but section 3 of RFC 1939 asks for every
  line that begins with a dot. A client that follows it reads the mail and one
  CRLF exactly when `ClientSafe` holds (`Stuffing.ClientRecovers`); the mail
  `.a` is an example where it does not (`Stuffing.ClientLosesDot`). Even the
  code's own rule can be undone exactly when no line is `..`
  (`Stuffing.StuffReversible`, `Stuffing.StuffCollides`).
- The CRLF in front of the end marker is sent even if the mail already ends in
  one. To a client it is part of the message: such a mail arrives with an empty
  line more (`Stuffing.ClientAddsLine`).
- `continueRetr` asks for all the free space, although its comment speaks of
  room kept for the final string. The end marker of a RETR is lost exactly when
  the finishing call meets the end of the file with room for the mail but not
  for five more bytes (`EndMarker.TightExactly`); a mail of 487 letters, sent
  into an empty buffer, is an example (`EndMarker.LostEndMarker`).
- `FAILED` is 2, so the test `next(...) >= 0` always succeeds: LIST prints one
  entry too many exactly when the last mail is marked (`Yielding.ListCall`,
  `EndMarker.StaleEntry`).
- A third space makes a line invalid without ending the scan of the current
  chunk, so the result depends on where the stream was cut, exactly while the
  scan is in that mode (`CommandSyntax.CutIsHarmless`). In one chunk the spaces
  behind the second are simply skipped (`LineSyntax.ThirdSpace`).
- After a CR that no LF follows, a line that was well formed so far is ended by
  an LF one character later, although no CR stands in front of it; a line that was
  not is not (`LineSyntax.StrayCR`).
- A message number from 2^31 on is read modulo 2^32, so `DELE 4294967297` marks
  the first mail; a number is read as it is exactly if it is below 2^31
  (`Standards.AtoiWraps`).
- A receive that ends inside an invalid line makes the scan step over the
  terminator into what an earlier use of the stack left there. That can change
  the outcome, and can make the scan leave the buffer, exactly when there is room
  behind the NUL (`CommandParser.StaleBytesMatter`).
- The fields of a datagram are copied before version and key are checked. A
  version of 125 digits or more leaves its field with any key
  (`Mp3p.UnauthorisedOverrun`; the exact condition is `Mp3p.OverrunExactly`).
- Closing a connection clears the connected flag of whatever name was typed,
  logged in or not (`Login.FlagsExactly`, `Login.SpoiledLogin`; `Login.SpoiledRun`
  is a run from an empty server).
- Mails are delivered whole only if all their bytes are 1..127: the machine
  stops at a `char` that is not positive (`Yielding.DirtyMailLost`).

## Model

| member | source | states |
|---|---|---|
| `Standards.AtoiReadsDec` | `src/pop/popFunctions.c:129` | the number that a message number prints as is the number DELE, RETR and LIST read back |
| `Standards.AtoiWraps` | `src/pop/popFunctions.c:129` | a number is read as itself if and only if it is below 2^31; above it is cut to 32 bits, and from 2^63 on it is -1 |
| `Stuffing.FramingSafe` | `src/mailsCache/byteStuff.c:97-127` | for every mail, the only CRLF.CRLF in CRLF, stuffed mail, end marker is the one at the end (section 3 of RFC 1939) |
| `Stuffing.NoLoneDotLeft` | `src/mailsCache/byteStuff.c:97-127` | the stuffed text has no line that is a lone dot before CR or the end |
| `Stuffing.StuffReversible` | `src/mailsCache/byteStuff.c:110-113` | taking one dot off each two-dot line gives the mail back if and only if the mail has no such line |
| `Stuffing.UnstuffExactly` | `src/mailsCache/byteStuff.c:110-113` | the same from the middle of a text on |
| `Stuffing.ReadsToEnd` | `src/mailsCache/byteStuff.c:97-127` | whatever the mail, such a client reads on to the real end of the response |
| `Stuffing.StuffCollides` | `src/mailsCache/byteStuff.c:110-113` | the mails `.` and `..` are the same on the wire |
| `Stuffing.ClientRecovers` | `src/pop/popFunctions.c:69-76` | a client that reads lines up to the one that is a lone dot, as section 3 of RFC 1939 has it, reads the mail and one CRLF if and only if the mail's dot-initial lines are exactly the lone dots after CRLF |
| `Stuffing.ClientAddsLine` | `src/pop/popFunctions.c:69-76` | a mail whose last line has its CRLF is read with an empty line more |
| `Stuffing.ClientLosesDot` | `src/mailsCache/byteStuff.c:110-123` | the mail `.a` is read as `a` and CRLF |
| `ByteStuff.MachineIsLineRule` | `src/mailsCache/byteStuff.c:97-127` | the four-state machine emits what the line rule says, whatever the text |
| `ByteStuff.ReadOneEmits` | `src/mailsCache/byteStuff.c:97-127` | a read returns the next character still owed, or zero when nothing can be emitted now |
| `ByteStuff.GetNEmits` | `src/mailsCache/byteStuff.c:32-51` | a call emits the next part of what is owed, and less than asked for only when the buffer is used up |
| `ByteStuff.AnyInterleaving` | `src/mailsCache/byteStuff.c:32-64` | over any sequence of adds and gets of any size, what was emitted and what is still owed make up the stuffed mail |
| `ByteStuff.FreshRun` | `src/mailsCache/byteStuff.c:78-83` | a new machine owes the whole stuffed mail |
| `ByteStuff.StuffedWhole` | `src/mailsCache/byteStuff.c:32-64` | after any calls, a call that gives less than asked for once the end of the file was announced completes exactly the stuffed mail |
| `ByteStuff.OnlyCleanOutput` | `src/mailsCache/byteStuff.c:42` | only bytes 1..127 are ever emitted, whatever the mail holds |
| `ByteStuff.GetNWorks` | `src/mailsCache/byteStuff.c:32-51` | a call for at least one character lowers the work left in the machine, or finds nothing pending and changes nothing |
| `ByteStuff.CharactersProcessor.constructor` | `src/mailsCache/byteStuff.c:24-26` | a new machine is at the start of a line with nothing pending |
| `ByteStuff.CharactersProcessor.ResetCharactersProcessor` | `src/mailsCache/byteStuff.c:78-83` | any machine becomes a new one |
| `ByteStuff.CharactersProcessor.ReadFromBuffer` | `src/mailsCache/byteStuff.c:97-127` | one read of the object is one read of the value, result included |
| `ByteStuff.CharactersProcessor.RebaseBuffer` | `src/mailsCache/byteStuff.c:85-94` | moving the pending characters to the front changes no value and makes the whole rest free |
| `ByteStuff.CharactersProcessor.GetNProcessedCharacters` | `src/mailsCache/byteStuff.c:32-51` | the destination starts with exactly what the value-level call emits, and the machine is left where that call leaves it |
| `ByteStuff.CharactersProcessor.AddCharactersToProcess` | `src/mailsCache/byteStuff.c:53-64` | as much as fits is added behind what is pending, as `strncpy` copies it, with the end-of-file flag |
| `CircularBuffer.Buffer.WriteDataToBuffer` | `src/buffer/circularBuffer.c:25-37` | the contents grow by the text at the end, across the wrap; the fatal branch is met if and only if the text does not fit |
| `CircularBuffer.Buffer.ReadDataFromBuffer` | `src/buffer/circularBuffer.c:39-59` | the destination gets the oldest bytes, and the contents lose exactly those |
| `CircularBuffer.Buffer.GetBufferFreeSpace` | `src/buffer/circularBuffer.c:5-8` | free bytes and contents make up the capacity |
| `CircularBuffer.Buffer.GetBufferOccupiedSpace` | `src/buffer/circularBuffer.c:10-13` | the length of the contents |
| `CircularBuffer.Buffer.IsBufferEmpty` | `src/buffer/circularBuffer.c:20-23` | true exactly for no contents |
| `CircularBuffer.Buffer.IsBufferFull` | `src/buffer/circularBuffer.c:15-18` | true exactly for contents as long as the capacity |
| `Maildrop.MarksFollowOps` | `src/mailsCache/mailsCache.c:169-188` | after any sequence of marks and resets, a mail is marked exactly if its deletion was asked for after the last reset, and the counter is the number of marked mails |
| `Maildrop.CountAfterMark` | `src/mailsCache/mailsCache.c:169-176` | marking a valid mail marks exactly one more |
| `Maildrop.AccountingAgrees` | `src/mailsCache/mailsCache.c:129-230` | iterating from the beginning until it fails yields as many mails as `getAmountOfMails` says, with sizes that sum to `getSizeOfMails` |
| `Maildrop.DrainIsListing` | `src/mailsCache/mailsCache.c:142-155` | that iteration visits the unmarked mails, each once, in order |
| `Maildrop.ReadFits` | `src/mailsCache/mailsCache.c:103-107` | what `fread` returns always fits the machine's buffer, so nothing is cut off |
| `Maildrop.GetNCharsEmits` | `src/mailsCache/mailsCache.c:96-117` | a call emits the next part of what the mail still owes, finishes if less than the space was owed, and when it finishes all was emitted but possibly one last dot |
| `Maildrop.FinishesWithRoom` | `src/mailsCache/mailsCache.c:109-116` | a call finishes with five bytes to spare if and only if what is owed leaves five |
| `Maildrop.GetNCharsWorks` | `src/mailsCache/mailsCache.c:96-117` | a call that does not finish lowers the work left, for any bytes in the file |
| `Maildrop.MarkedNamesAre` | `src/mailsCache/mailsCache.c:190-204` | the names to unlink are, position by position, those of the marked mails in order, each once, and of no others |
| `MailsCache.MailCache.constructor` | `src/mailsCache/mailsCache.c:50-65` | a new maildrop lists the given files, none marked, nothing open |
| `MailsCache.MailCache.OpenMailFile` | `src/mailsCache/mailsCache.c:77-94` | a valid number opens that mail at its start with a new machine; any other changes nothing and fails |
| `MailsCache.MailCache.CloseMailFile` | `src/mailsCache/mailsCache.c:119-127` | no mail is open afterwards; it fails if none was |
| `MailsCache.MailCache.GetNCharsFromMail` | `src/mailsCache/mailsCache.c:96-117` | characters, status and new state are those of the value-level call, including the refusal when no mail is open or no space is offered |
| `MailsCache.MailCache.Next` | `src/mailsCache/mailsCache.c:142-155` | the iterator skips marked mails and the entry is the next unmarked one; on failure the entry keeps its value |
| `MailsCache.MailCache.GetMailInfo` | `src/mailsCache/mailsCache.c:157-167` | number and size of a valid mail; otherwise the entry keeps its value |
| `MailsCache.MailCache.MarkMail` | `src/mailsCache/mailsCache.c:169-176` | a valid mail is marked and counted; otherwise nothing changes |
| `MailsCache.MailCache.ResetMarks` | `src/mailsCache/mailsCache.c:178-188` | no mail is marked and the counter is zero |
| `MailsCache.MailCache.DeleteMarkedMails` | `src/mailsCache/mailsCache.c:190-204` | the files that are unlinked are those at exactly the positions of the marked mails, in order, each once |
| `MailsCache.MailCache.GetSizeOfMails` | `src/mailsCache/mailsCache.c:215-230` | the sum over the unmarked mails |
| `Commands.LookupFinds` | `src/pop/popFunctions.c:34-56` | a command is found if and only if the name spells its keyword in any case |
| `Commands.NamesAre` | `src/pop/popFunctions.c:34-45` | the ten commands are found by USER, PASS, STAT, LIST, RETR, DELE, NOOP, RSET, QUIT, CAPA, each in any case, and by nothing else |
| `Commands.GetCommand` | `src/pop/popFunctions.c:49-56` | the loop over the table finds the first match, or nothing |
| `CommandSyntax.FeedManyKeeps` | `src/parsers/commandParser.c:85-242` | after any input all nodes but the last are finished and every field is within its size |
| `CommandSyntax.CutIsHarmless` | `src/parsers/commandParser.c:92-122` | a cut of the stream is invisible to every continuation if and only if the line is not past a third space of the same chunk |
| `CommandSyntax.SegmentationIndependent` | `src/parsers/commandParser.c:220-242` | with at most two spaces between LFs, any cutting of the stream leaves the same list as none |
| `CommandSyntax.PipelineRoundTrip` | `src/parsers/commandParser.c:220-269` | rendered commands, received in any chunks, are dequeued as exactly those names and arguments in order, with no handler exactly for names outside the table (section 6.6 of RFC 2449) |
| `CommandSyntax.LinesStayValid` | `src/parsers/commandParser.c:85-125` | wherever a stream of rendered commands is cut, no invalid line is open |
| `CommandSyntax.AbsentHandler` | `src/pop/popFunctions.c:49-56` | there is no handler exactly for a name that spells no keyword in any case |
| `LineSyntax.AnyLine` | `src/parsers/commandParser.c:85-172` | a line without CR, LF and NUL and with at most two spaces becomes one finished node; it has a handler if and only if the line is a keyword in any case with words that are printable and not too long, and then name and arguments are those words |
| `LineSyntax.AnyLines` | `src/parsers/commandParser.c:220-269` | the same for any number of such lines in any chunks: each is dequeued in its turn, and none becomes another |
| `LineSyntax.ThirdSpace` | `src/parsers/commandParser.c:92-122` | in one chunk a line with more spaces becomes what it becomes without those behind the second |
| `LineSyntax.StrayCR` | `src/parsers/commandParser.c:114-145` | a line with a CR that no LF follows is never a command; the next LF ends it if and only if it follows a CR, or comes one character after the first CR of a line well formed so far |
| `CommandParser.TailHarmless` | `src/parsers/commandParser.c:227-239` | if the text does not end inside an invalid line, or fills the buffer, parsing the buffer is parsing its text, whatever is behind the terminator |
| `CommandParser.StaleBytesMatter` | `src/clients/clients.c:65-72` | over every 256-byte buffer that holds the text and its NUL, the bytes behind the NUL can change the outcome if and only if the text ends inside an invalid line with room behind its NUL; and if and only if so, they can make the scan leave the buffer |
| `CommandParser.LastZeroHolds` | `src/parsers/commandParser.c:127-145` | a zero in the last byte of the buffer keeps every scan inside |
| `CommandParser.ProcessWriting` | `src/parsers/commandParser.c:85-125` | for any 256 bytes: the node and the count are those of the line up to the NUL, the line's end, or the point where it is found invalid (what that makes of a whole line is `LineSyntax.AnyLine`); a read behind the buffer happens only if no NUL follows and the line does not end inside |
| `CommandParser.DiscardUntilCRLF` | `src/parsers/commandParser.c:127-145` | for any 256 bytes: an invalid line is used up to its CRLF, or to one past the NUL; a read behind the buffer happens only if there is neither |
| `CommandParser.ProcessNode` | `src/parsers/commandParser.c:147-172` | for any 256 bytes: the node becomes what the line makes of it, with its handler or as an invalid command; a read behind the buffer happens if and only if no NUL follows and the line, with the character it looks ahead to, does not end inside |
| `CommandParser.CommandList.AddNodeToList` | `src/parsers/commandParser.c:185-195` | an empty node is linked behind the others |
| `CommandParser.CommandList.DeleteFirstNode` | `src/parsers/commandParser.c:197-209` | the first node is unlinked and the others stay |
| `CommandParser.CommandList.AddData` | `src/parsers/commandParser.c:220-242` | the linked list becomes the list that the buffer makes of it, for every list, every text and every tail; a read behind the buffer happens if and only if the value-level parse has no result |
| `CommandParser.GetFirstCommand` | `src/parsers/commandParser.c:255-269` | a finished first command is returned and removed; otherwise nothing |
| `CommandParser.AvailableCommands` | `src/parsers/commandParser.c:245-250` | true exactly if the first command is finished |
| `Users.TableSize` | `src/users/users.c:87-102` | with distinct names the list is as long as the table is large |
| `Users.RemoveEntry` | `src/users/users.c:115-135` | removing a node removes that name and no other |
| `Users.UserList.GetUserNode` | `src/users/users.c:43-55` | the node of a name in the table, null exactly for other names |
| `Users.UserList.UserExists` | `src/users/users.c:57-59` | true exactly for names in the table |
| `Users.UserList.PasswordIsValid` | `src/users/users.c:23-32` | true exactly for a name with its password |
| `Users.UserList.UserIsConnected` | `src/users/users.c:61-64` | true exactly for a name in the table whose flag is up |
| `Users.UserList.ToggleUserConnected` | `src/users/users.c:66-70` | the flag of that name, if it is in the table, and nothing else |
| `Users.UserList.ModifyUserPassword` | `src/users/users.c:73-83` | the password of that name, if it is in the table, and nothing else |
| `Users.UserList.InsertUserNode` | `src/users/users.c:86-102` | a new name is added, not connected; a known one changes nothing |
| `Users.UserList.DeleteUserNode` | `src/users/users.c:115-135` | the table loses that name and no other |
| `Session.FollowKeeps` | `src/pop/popFunctions.c:82-188` | one command: phases only go forward; files are unlinked only by QUIT in the TRANSACTION phase, and then, position by position, exactly the mails deleted since the last reset |
| `Session.DeletionOnlyByQuit` | `src/pop/popFunctions.c:128-181` | the same over every sequence of commands, those after QUIT included (section 6 of RFC 1939) |
| `Session.RespondKeeps` | `src/pop/popFunctions.c:94-104` | a session has a maildrop as long as it is in the TRANSACTION phase |
| `Reading.EndsAtMarker` | `src/pop/popFunctions.c:69-76` | whatever response of several lines a client of section 3 of RFC 1939 reads to its end, the only CRLF.CRLF from its status line's CRLF on is the one at its end |
| `Listings.EntryTells` | `src/pop/popFunctions.c:190-237` | the line of a listed mail ends in its only CRLF; the number it begins with, as `atoi` reads it, is one that RETR and DELE accept, and the number behind its first blank is the size of that mail; there is nothing more on it |
| `Listings.ListRead` | `src/pop/popFunctions.c:190-219` | a client reads in the reply to LIST a status line with the number of lines, and a line for every unmarked mail and no other, by increasing number |
| `Listings.StatRead` | `src/pop/popFunctions.c:183-188` | the two numbers of STAT are the number of lines of LIST and the sum of the sizes on them, and nothing is cut off |
| `Replies.ReplySays` | `src/pop/popFunctions.c:82-295` | for every session and command a client reads one response and nothing is left over: `+OK` if and only if the phase, the password and the flag, or the message number allow the command, otherwise the `-ERR` line for the reason; a message follows exactly a successful RETR, LIST without argument or CAPA, and it is the mail (exactly if it is `ClientSafe`), the listing, the capabilities |
| `Replies.Framed` | `src/pop/popFunctions.c:69-76` | a reply of one line has its only CRLF at its end; of one of several lines the first CRLF.CRLF from its status line on is its end |
| `Replies.RetrRead` | `src/pop/popFunctions.c:265-286` | a client reads the reply to RETR to its end, and reads the mail and one CRLF in it if and only if the mail is `ClientSafe` |
| `Replies.RespondDoes` | `src/pop/popFunctions.c:82-181` | only a PASS with the right password for a user whose flag is down leads to TRANSACTION, opens that user's mails and raises that flag; QUIT leads to UPDATE; USER stores the name; nothing else changes phase, name or table |
| `Replies.RespondMarks` | `src/pop/popFunctions.c:128-159` | DELE marks that mail, RSET none, no command changes anything else of a maildrop |
| `Replies.Splits` | `src/pop/popFunctions.c:58-76` | the replies to any sequence of commands, one behind the other, come apart again into one response each, saying what it should |
| `Replies.ClientSplits` | `src/server/serverUtils.c:318-372` | when a connection waits for input and nothing went wrong with a command, a client that knows what it asked reads in all that was sent the greeting and exactly one response for each command, in order, each saying what it should |
| `Replies.LinesCarriedOut` | `src/server/serverUtils.c:318-372` | when a connection waits for input: of any lines received in any pieces, with no stale byte seen, each was carried out in its turn as the command it is, or refused if it is none |
| `Yielding.ContinueListFits` | `src/pop/popFunctions.c:190-199` | the LIST loop moves on whenever it is entered, stops only at the end or with 128 bytes or less left, and leaves room for the end marker |
| `Yielding.ContinueListIs` | `src/pop/popFunctions.c:190-199` | the lines printed and those left are the lines due, with one stale line more exactly when the end is reached and the last mail is marked |
| `Yielding.ListCallFits` | `src/pop/popFunctions.c:201-219` | what a call queues fits the room it found, for every maildrop; a call that yields has mails left and has moved the iterator |
| `Yielding.ListCall` | `src/pop/popFunctions.c:190-219` | over any number of yields, the finished reply is the count line, one line per unmarked mail in order and the end marker (`Listings.ListRead` says what a client reads in it), if and only if there is no mail or the last one is unmarked |
| `Yielding.RetrCallFits` | `src/pop/popFunctions.c:249-263` | a call never overruns the output buffer, and one that does not finish does some work |
| `Yielding.RetrCall` | `src/pop/popFunctions.c:249-286` | over any number of yields, the finished reply to RETR is status line, stuffed mail and end marker if and only if the last call was not tight |
| `Yielding.DirtyMailLost` | `src/mailsCache/byteStuff.c:42` | a mail with a byte outside 1..127 never arrives as it should |
| `EndMarker.FinishedExactly` | `src/mailsCache/mailsCache.c:103-116` | a call reports the end if and only if it meets the end of the file and has room for all that is owed, a last dot not counted |
| `EndMarker.TightExactly` | `src/pop/popFunctions.c:250-261` | the end marker is lost if and only if the call meets the end of the file with room for the mail but not for five bytes more |
| `EndMarker.LostEndMarker` | `src/pop/popFunctions.c:265-286` | with an empty buffer, a mail of 487 to 490 letters is answered without its end marker |
| `EndMarker.StaleEntry` | `src/pop/popFunctions.c:190-219` | with its only mail marked, LIST answers with an entry that is not in the list |
| `Invocation.FirstCall` | `src/pop/popFunctions.c:82-295` | the first call of any command has at once the reference's effect on session, users and files, fits the buffer, and gives the reference's reply if it finishes, exactly if nothing went wrong |
| `Invocation.ResumedCall` | `src/pop/popFunctions.c:190-286` | a later call of LIST or RETR changes nothing but the reply and the maildrop's own place in it, and completes the reference's reply |
| `System.ExecuteKeeps` | `src/server/serverUtils.c:318-351` | starting, resuming or refusing a command keeps the invariant of a connection and its history |
| `System.ExecuteDoes` | `src/server/serverUtils.c:318-351` | the execution part of an event does to session, user table and files all that the reference says of the command it dequeues, or nothing |
| `System.SendKeeps` | `src/clients/clients.c:16-42` | any result of send, errors included, keeps it |
| `System.ReadKeeps` | `src/clients/clients.c:45-74` | any result of recv with any bytes behind its terminator keeps it |
| `System.ApplyKeeps` | `src/server/serverUtils.c:353-372` | every event keeps the invariant: queue of finished commands and at most one unfinished, READING only with nothing to do, at most 512 bytes buffered, bytes sent and buffered equal to greeting and replies; a scan that leaves the receive buffer ends the record |
| `System.ClosesExactly` | `src/server/serverUtils.c:353-372` | a slot closes if and only if the input ends, a send fails, or the last byte of what is to be said after a QUIT is sent; it is wiped then and the flag of its name is down |
| `System.RunKeeps` | `src/server/serverUtils.c:353-372` | so does every run |
| `EndToEnd.OutputInOrder` | `src/server/serverUtils.c:318-372` | over every run, what was sent, is buffered or was lost with the slot is the greeting and the replies in queue order without interleaving, and a complete reply is the reference's exactly when nothing went wrong with it |
| `EndToEnd.QuitNeverWaits` | `src/server/serverUtils.c:368-369` | over every run no open connection waits for input once its QUIT was carried out |
| `EndToEnd.NothingStranded` | `src/clients/clients.c:39-40` | a connection that waits for input has sent a complete reply to every complete line it received |
| `EndToEnd.HeardIsChunks` | `src/clients/clients.c:45-74` | if no receive ended inside an invalid line with room behind its NUL, the queue that was ever built is the parse of the texts received |
| `EndToEnd.RenderedUnseen` | `src/clients/clients.c:45-74` | while the stream received is the beginning of rendered commands, that condition holds, whatever is behind the terminators |
| `EndToEnd.Pipelined` | `src/server/serverUtils.c:318-372` | rendered commands in any pieces, with anything behind the terminators, through any partial sends: all are carried out in order, each in the session its predecessor left, and if nothing went wrong with any of them, the client gets the greeting and the reference's replies |
| `EndToEnd.DeletionsOfRun` | `src/pop/popFunctions.c:161-181` | over every run, however it ends, the files unlinked are none, or after QUIT in the TRANSACTION phase those of the mails deleted since the last reset, in order, each once, and no others |
| `EndToEnd.OnlyQuitUnlinks` | `src/pop/popFunctions.c:161-181` | the only event that unlinks files is the one that dequeues a QUIT in the TRANSACTION phase, and the files are those marked at that moment |
| `Progress.WritableLess` | `src/server/serverUtils.c:353-372` | a writable event that sends something lowers queued commands, work left, buffered bytes in that order, or settles the connection |
| `Progress.Settles` | `src/server/serverUtils.c:353-372` | under every endless schedule of such events a finite number leads to READING or to a closed slot, unless a scan has left its buffer before |
| `Progress.QuitCloses` | `src/server/serverUtils.c:363-370` | once a QUIT was carried out, every endless schedule of such events closes the slot after a finite number |
| `OpenFiles.ApplyTidy` | `src/pop/popFunctions.c:249-286` | every event keeps it that a mail file is open if and only if the current command is a RETR |
| `OpenFiles.FilesTidy` | `src/pop/popFunctions.c:249-286` | so no file stays open behind its command, over every run |
| `Login.FlagsExactly` | `src/clients/clients.c:83-98` | from right flags a move leaves them right if and only if it does not spoil them: closing a connection that never logged in under a name held elsewhere, or registering anew a name still held |
| `Login.ExclusiveLogin` | `src/pop/popFunctions.c:94-114` | in every run of commands, hangups and table changes without a spoiling move at most one connection per user is logged in |
| `Login.SpoiledLogin` | `src/clients/clients.c:92` | after one spoiling close a second connection can log in as the same user |
| `Login.SpoiledRun` | `src/clients/clients.c:92` | from an empty server, a run of eight moves that keeps the flags right, one spoiling close, and one PASS leave two connections logged in as the same user |
| `Login.CommandLogin` | `src/pop/popFunctions.c:94-114` | a command logs in only when the flag was down, and then raises it; otherwise it leaves logins and users as they are |
| `Connections.StepIsMoves` | `src/server/serverUtils.c:353-424` | every event of the server (accept, readable, writable, datagram) changes sessions and user table by at most a command and a hangup, or one change of the table, as the sequential moves say |
| `Connections.QuitLeaves` | `src/server/serverUtils.c:368-369` | the event that sends the last byte after a QUIT takes the session out of the server and leaves the flag of its name down |
| `Connections.OneSlotPerUser` | `src/pop/popFunctions.c:94-114` | from a server with no flag up, over every run of events of all its connections and of datagrams in which nothing spoils the flags, at most one slot per user is logged in |
| `Clients.UserData.constructor` | `src/clients/clients.c:96-97` | a free slot |
| `Clients.UserData.InitClient` | `src/clients/clients.c:76-81` | a free slot becomes one that has just been accepted and holds the greeting |
| `Clients.UserData.Wipe` | `src/clients/clients.c:96-97` | any slot becomes free |
| `Clients.CloseClient` | `src/clients/clients.c:83-98` | the slot is free and the flag of the typed name is down |
| `PopFunctions.WriteToOutputBuffer` | `src/pop/popFunctions.c:58-66` | the text is queued whole or not at all, according to the room, and the fatal branch is not met |
| `PopFunctions.SendTerminationCRLF` | `src/pop/popFunctions.c:69-76` | the end marker of RETR or LIST is queued if it fits |
| `PopFunctions.ContinueListing` | `src/pop/popFunctions.c:190-199` | queued lines, iterator and status are those of the value-level loop |
| `PopFunctions.ListWithNoArguments` | `src/pop/popFunctions.c:201-219` | a call of LIST, first or resumed, is the value-level call |
| `PopFunctions.ListWithArgument` | `src/pop/popFunctions.c:221-237` | the line of a valid mail, or the error |
| `PopFunctions.ContinueRetrieving` | `src/pop/popFunctions.c:249-263` | all the free space is asked for and what comes is queued |
| `PopFunctions.Retrieve` | `src/pop/popFunctions.c:265-286` | a call of RETR, first or resumed, is the value-level call |
| `Server.CheckValidUsername` | `src/pop/popFunctions.c:82-91` | the name is stored if and only if the reply fits; otherwise the command asks to be called again |
| `Server.CheckValidPassword` | `src/pop/popFunctions.c:94-114` | the password is looked at before the flag; only a right password for a user whose flag is down enters the TRANSACTION phase, opens that user's maildrop and raises the flag, in slot and table at once |
| `Server.Delete` | `src/pop/popFunctions.c:128-143` | a valid mail is marked and counted, any other number changes no mark; the reply says which |
| `Server.Reset` | `src/pop/popFunctions.c:145-159` | no mark is left, the counter is zero, and nothing else of the slot moves |
| `Server.Quit` | `src/pop/popFunctions.c:161-181` | exactly the marked files are unlinked in the TRANSACTION phase, none in any other; the phase is UPDATE in any case |
| `Server.Stat` | `src/pop/popFunctions.c:183-188` | the reply counts and sums the unmarked mails; nothing else of the slot moves |
| `Server.List` | `src/pop/popFunctions.c:240-247` | with an argument one line or an error; without one a first or resumed listing, whichever the slot is at |
| `Server.Retr` | `src/pop/popFunctions.c:265-286` | a first or resumed retrieval, whichever the slot is at, touching only the open mail and the output |
| `Server.CallHandler` | `src/server/serverUtils.c:338-339` | whichever handler it is, slot, user table, status and unlinked files are those of the value-level call |
| `Server.RunCurrent` | `src/server/serverUtils.c:338-349` | a command whose handler asks for more stays the current one, any other is over, and the rest of the slot is what the handler left |
| `Server.ExecuteFirstCommand` | `src/server/serverUtils.c:318-351` | resuming goes before dequeuing, refusals fit the buffer, and the objects become what the value-level step says |
| `EventLoop.SendPending` | `src/clients/clients.c:17-36` | reading all, sending k bytes and writing back the rest leaves exactly what comes after the first k, and the fatal branch is not met |
| `EventLoop.WriteToClient` | `src/clients/clients.c:16-42` | the slot after any result of send, with the step to READING or the close |
| `EventLoop.ReadFromClient` | `src/clients/clients.c:45-74` | the slot after any result of recv, with any bytes behind its terminator; a read behind the buffer is reported if and only if there is one |
| `EventLoop.HandleWritable` | `src/server/serverUtils.c:363-370` | more than 128 bytes free, run; then send; then close after a QUIT |
| `EventLoop.HandleClient` | `src/server/serverUtils.c:355-371` | the body of the event loop takes the objects of a connection to the state of the model's event, and keeps the invariant; a read behind the receive buffer is reported if and only if there is one, and nothing is said of the objects then |
| `Mp3pAutomaton.ScanEnds` | `src/mp3pFunctions/mp3pFunctions.c:573-578` | a datagram that ends in NUL always ends in a command or a refusal |
| `Mp3pAutomaton.StaticDoesNotMatter` | `src/mp3pFunctions/mp3pFunctions.c:194` | the outcome does not depend on what the static variable held |
| `Mp3pGrammar.RecogniserExact` | `src/mp3pFunctions/mp3pFunctions.c:192-487` | a command state is reached if and only if the input is a datagram of the grammar, and it is that datagram's command |
| `Mp3pGrammar.RefusalsExact` | `src/mp3pFunctions/mp3pFunctions.c:192-487` | each refusal for exactly its reason: no version and identifier line, no key line, no command, or something behind the NUL |
| `Mp3p.ScansAgree` | `src/mp3pFunctions/mp3pFunctions.c:499-564` | the second scan copies exactly the grammar's fields if they fit their arrays, and leaves its buffers otherwise |
| `Mp3p.CopyRefused` | `src/mp3pFunctions/mp3pFunctions.c:543-553` | version, identifier and key are copied for a refused command too |
| `Mp3p.OverrunExactly` | `src/mp3pFunctions/mp3pFunctions.c:543-564` | the copy leaves its buffers if and only if the version or an argument is too long for its field, or a refused key line is too long or has no newline |
| `Mp3p.UnauthorisedOverrun` | `src/mp3pFunctions/mp3pFunctions.c:584-594` | a version of 125 digits does so with any key, as the copy comes before the checks |
| `Mp3p.RenderUnique` | `src/mp3pFunctions/mp3pFunctions.c:192-487` | no text is the rendering of two datagrams |
| `Mp3p.AnswerIs` | `src/mp3pFunctions/mp3pFunctions.c:568-642` | a datagram is answered by its command with its fields, or by what is wrong first: version, then key |
| `Mp3p.KeyAnswer` | `src/mp3pFunctions/mp3pFunctions.c:625-627` | a malformed key line is answered with status 103, unless the copy leaves its buffers |
| `Mp3p.LineAnswer` | `src/mp3pFunctions/mp3pFunctions.c:628-630` | a malformed command behind a well-formed key line with 104, unless the copy leaves its buffers |
| `Mp3p.NotAnswered` | `src/mp3pFunctions/mp3pFunctions.c:568-586` | without a version and identifier line, or with something behind the NUL, nothing is answered and nothing changes |
| `Mp3p.DatagramAnswer` | `src/mp3pFunctions/mp3pFunctions.c:587-636` | a datagram of the grammar whose fields fit is answered with 101 if it has another version, with 100 if it has the version but another key, and the table stays |
| `Mp3p.CommandAnswer` | `src/mp3pFunctions/mp3pFunctions.c:596-624` | one whose fields fit, with the right version and key, is taken for the command that its name stands for, with its own fields |
| `Mp3p.CarriedOutExactly` | `src/mp3pFunctions/mp3pFunctions.c:587-636` | a command is carried out if and only if the input is a datagram of the grammar with the right version and key that fits |
| `Mp3p.RequestDoes` | `src/mp3pFunctions/mp3pFunctions.c:144-167` | DU, AU and MP do to their user what they should, to no other user anything, and never touch a connected flag that stays |
| `Mp3p.OnlyAuthorisedChange` | `src/server/serverUtils.c:396-424` | unless the copy leaves its buffers, the user table changes only for an authorised DU, AU or MP |
| `Mp3p.CopyUntil` | `src/mp3pFunctions/mp3pFunctions.c:512-518` | the copying loop takes the text in front of the first stop character |
| `Mp3p.Recogniser.Recognise` | `src/mp3pFunctions/mp3pFunctions.c:568-578` | the loop, with counters and static variable, reaches the state of the scan that starts afresh |
| `Mp3p.Recogniser.ParseDatagram` | `src/mp3pFunctions/mp3pFunctions.c:568-642` | the outcome is a function of the datagram alone |
| `Mp3p.Recogniser.HandleUdpRequest` | `src/server/serverUtils.c:396-424` | user list and status after a request; a copy that leaves its buffers is reported if and only if there is one |
| `Mp3p.CarryOut` | `src/mp3pFunctions/mp3pFunctions.c:108-190` | each strategy's effect on the user list and its status |

## Left out

- Sockets, `select`, `accept`, signals, `fd_set`, arguments: what `send` and `recv` return is a parameter of an event.
- The loop of `handleClients` over the slots as objects: `EventLoop.HandleClient` is its body for one slot; `Connections` has all slots at once, as values, with their events in any order.
- The memory of different slots: contracts speak of one slot and the user table, not of two slots at once.
- `fopen`, `ferror` and `stat` failures, and files that change while they are listed: a mail is a fixed sequence of bytes with a fixed size.
- Directory listing: the maildrop of a user at login is a parameter; its order is the order of that sequence.
- The sum of sizes is not cut to 64 bits, the number of mails is below 2^31.
- C strings of fixed size are strings: the sizes of command and arguments are kept by the parser, those of the fields of a datagram are checked when it is copied, those of user names and passwords in the table are not modelled.
- `atoi` is modelled as glibc's: a saturating 64-bit value cut to 32 bits.
- What the program does after a scan or a copy has left its buffer: the model reports it and says nothing from there on.
- The handlers' branches for a missing maildrop: a maildrop is there in every TRANSACTION state (`System.ApplyKeeps`).
- Mp3p.Recogniser.HandleUdpRequest: does not say what is answered or changed once the copy has left its buffers (`Overrun`), because that depends on what lies behind them in memory.
- Mp3p.OnlyAuthorisedChange: says nothing of a request whose copy left its buffers, for the same reason.
- The text of datagram answers, statistics, the list of users, the logger, the monitoring client, `test/` and `mails/`.
- `Stuffing.FramingSafe`: is about the code's own stuffing; that a client gets back the same mail is a different matter (`Stuffing.ClientRecovers`).
- Heap exhaustion and `free`.
