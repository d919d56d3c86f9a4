// One connection as the event loop drives it, as values: the command queue,
// the 512-byte output buffer, a command that may have yielded, and what each
// readable or writable event does.

module ClientModel {
  import opened Standards
  import opened Stuffing
  import opened Maildrop
  import opened Commands
  import opened CommandSyntax
  import opened CommandParser
  import opened Users
  import opened Session

  datatype Mode = READING | WRITING

  /** `running` is the current command while commandState is PROCESSING. */
  datatype Client = Client(list: seq<Cmd>, out: string, phase: PopState, mode: Mode, open: bool,
                           username: string, running: Option<ToExecute>, cache: Option<Cache>)

  const CLOSED := Client([], "", ANY, READING, false, "", None, None)

  /** After accept: the greeting is already in the output buffer. */
  const ACCEPTED := Client([], GREETING, AUTHENTICATION, WRITING, true, "", None, None)

  function Free(c: Client): int { BUFFERSIZE - |c.out| }

  /** `writeToOutputBuffer` with `room` bytes free: all of the text or none. */
  function Put(room: int, text: string): string {
    if |text| <= room then text else ""
  }

  function SessionOf(c: Client): Session {
    Session(c.phase, c.username, match c.cache case None => None case Some(k) => Some(k.mails))
  }

  /** What every reachable client satisfies. */
  ghost predicate ClientOk(c: Client) {
    |c.out| <= BUFFERSIZE && ListOk(c.list) &&
    (c.cache.Some? ==> CacheOk(c.cache.value)) &&
    (c.open ==> SessionOk(SessionOf(c))) &&
    (c.running.Some? ==>
       c.open && c.phase == TRANSACTION && c.mode == WRITING &&
       (c.running.value.callback == Some(RETR) ||
        (c.running.value.callback == Some(LIST) && c.running.value.arg1 == "")) &&
       (c.running.value.callback == Some(RETR) ==> c.cache.value.retr.current.Some?) &&
       (c.running.value.callback == Some(LIST) ==> c.cache.value.it < |c.cache.value.mails|)) &&
    (c.mode == READING ==> c.out == "" && c.running == None && !Available(c.list))
  }

  // ------------------------------------------------------ LIST, with yields

  /** The entry printed by a round of continueList: when `next` fails, the
      entry variable keeps its value, which is printed again. */
  function Printed(found: Option<MailInfo>, was: MailInfo): MailInfo {
    match found case Some(x) => x case None => was
  }

  /** The loop of continueList: the iterator after it and the entries queued. */
  function ContinueList(mails: seq<Mail>, it: nat, room: int, info: MailInfo): (nat, seq<MailInfo>)
    requires it <= |mails| < 0x8000_0000
    decreases |mails| - it
  {
    if room > MAX_SINGLE_LINE_RESPONSE && it < |mails| then
      var (j, found) := NextFrom(mails, it);
      var now := Printed(found, info);
      if |ListLine(now)| <= room then
        var (k, more) := ContinueList(mails, j, room - |ListLine(now)|, now);
        (k, [now] + more)
      else ContinueList(mails, j, room, now)
    else (it, [])
  }

  /** The header line, unless the command is being resumed. */
  function ListHead(k: Cache, room: int, first: bool): string {
    if first then Put(room, ListHeader(GetAmountOfMails(k))) else ""
  }

  /** Where the entries go on. */
  function ListAt(k: Cache, first: bool): nat { if first then 0 else k.it }

  /** The bytes free after the header line. */
  function ListLeft(k: Cache, room: int, first: bool): int { room - |ListHead(k, room, first)| }

  /** The entries from `it` on behind `head`, with `left` bytes free after it. */
  function ListFrom(k: Cache, head: string, it: nat, left: int, junk: MailInfo): (Cache, string, ExecutionStatus)
    requires CacheOk(k) && it <= |k.mails|
  {
    var (j, entries) := ContinueList(k.mails, it, left, junk);
    var body := ListLines(entries);
    if j < |k.mails| then (k.(it := j), head + body, NOT_FINISHED)
    else (k.(it := j), head + body + Put(left - |body|, LISTEND), FINISHED)
  }

  /** LIST without argument; `first` when it is not resumed. */
  function ListAll(k: Cache, room: int, first: bool, junk: MailInfo): (Cache, string, ExecutionStatus)
    requires CacheOk(k)
  {
    ListFrom(k, ListHead(k, room, first), ListAt(k, first), ListLeft(k, room, first), junk)
  }

  // ------------------------------------------------------ RETR, with yields

  /** continueRetr and the end of retr. */
  function ContinueRetr(k: Cache, room: int): (Cache, string, ExecutionStatus)
    requires CacheOk(k) && k.retr.current.Some?
  {
    if room > MAX_SINGLE_LINE_RESPONSE then
      var (r, status, text) := GetNChars(k.retr, room);
      var body := Put(room, text);
      if status == FINISHED then (CloseMail(k.(retr := r)), body + Put(room - |body|, TERMINATOR), FINISHED)
      else (k.(retr := r), body, status)
    else (k, "", NOT_FINISHED)
  }

  /** The bytes free after the status line. */
  function RetrLeft(room: int): int { room - |Put(room, RETRFOLLOWS)| }

  /** RETR, fresh or resumed. */
  function RetrAll(k: Cache, room: int, first: bool, mailNo: int): (Cache, string, ExecutionStatus)
    requires CacheOk(k) && (!first ==> k.retr.current.Some?)
  {
    if first then
      var (k0, ok) := OpenMail(k, mailNo);
      if !ok then (k, Put(room, NOSUCHMAIL), FAILED)
      else
        var (k1, body, status) := ContinueRetr(k0, RetrLeft(room));
        (k1, Put(room, RETRFOLLOWS) + body, status)
    else ContinueRetr(k, room)
  }

  // ------------------------------------------------------- command bodies

  /** What a handler leaves behind: `text` is what it adds to the output. */
  datatype Invoked = Invoked(client: Client, users: UserTable, text: string, status: ExecutionStatus,
                             unlinked: seq<string>)

  function Say(c: Client, u: UserTable, text: string, status: ExecutionStatus): Invoked {
    Invoked(c, u, Put(Free(c), text), status, [])
  }

  /** USER, PASS and CAPA ask to be called again when their line does not fit. */
  function SayOrRetry(c: Client, u: UserTable, text: string): Invoked {
    Say(c, u, text, if |text| <= Free(c) then FINISHED else NOT_FINISHED)
  }

  function InvokeUser(c: Client, u: UserTable, name: string): Invoked {
    if |USERRECEIVED| <= Free(c) then Say(c.(username := name), u, USERRECEIVED, FINISHED)
    else Say(c, u, USERRECEIVED, NOT_FINISHED)
  }

  function LoggedInto(c: Client, store: Store): Client {
    c.(cache := Some(Cache(BoxOf(store, c.username), 0, 0, RetrState(None, ByteStuff.FRESH))), phase := TRANSACTION)
  }

  function InvokePass(c: Client, u: UserTable, store: Store, password: string): Invoked {
    var a := Admit(u, c.username, password);
    if a == Welcome then SayOrRetry(LoggedInto(c, store), Toggle(u, c.username, true), AdmissionText(a))
    else SayOrRetry(c, u, AdmissionText(a))
  }

  function InvokeQuit(c: Client, u: UserTable): Invoked
    requires c.phase == TRANSACTION ==> c.cache.Some?
  {
    Say(c.(phase := UPDATE), u, EXITING, FINISHED).
      (unlinked := if c.phase == TRANSACTION then MarkedNames(c.cache.value.mails) else [])
  }

  function InvokeStat(c: Client, u: UserTable): Invoked
    requires c.cache.Some?
  {
    var k := c.cache.value;
    Say(c, u, StatText(GetAmountOfMails(k), SizeOfMails(k.mails)), FINISHED)
  }

  function InvokeDele(c: Client, u: UserTable, mailNo: int): Invoked
    requires c.cache.Some?
  {
    var (k, ok) := MarkMailToDelete(c.cache.value, mailNo);
    if ok then Say(c.(cache := Some(k)), u, MARKED, FINISHED) else Say(c, u, NOSUCHMAIL, FAILED)
  }

  function InvokeRset(c: Client, u: UserTable): Invoked
    requires c.cache.Some?
  {
    Say(c.(cache := Some(ResetToDelete(c.cache.value))), u, UNMARKED, FINISHED)
  }

  function InvokeList(c: Client, u: UserTable, arg: string, junk: MailInfo): Invoked
    requires c.cache.Some? && CacheOk(c.cache.value)
  {
    if arg != "" then
      var mails := c.cache.value.mails;
      if ValidMailNo(mails, Atoi(arg)) then Say(c, u, "+OK " + ListLine(InfoOf(mails, Atoi(arg) - 1)), FINISHED)
      else Say(c, u, NOSUCHMESSAGE, FAILED)
    else
      var (k, text, status) := ListAll(c.cache.value, Free(c), c.running == None, junk);
      Invoked(c.(cache := Some(k)), u, text, status, [])
  }

  function InvokeRetr(c: Client, u: UserTable, arg: string): Invoked
    requires c.cache.Some? && CacheOk(c.cache.value) && (c.running.Some? ==> c.cache.value.retr.current.Some?)
  {
    var (k, text, status) := RetrAll(c.cache.value, Free(c), c.running == None, Atoi(arg));
    Invoked(c.(cache := Some(k)), u, text, status, [])
  }

  /** The handlers that only answer, and QUIT. */
  function InvokeLine(c: Client, u: UserTable, cmd: ToExecute): Invoked
    requires cmd.callback.Some? && cmd.callback.value in {USER, CAPA, NOOP, QUIT}
    requires c.phase == TRANSACTION ==> c.cache.Some?
  {
    match cmd.callback.value
    case USER => InvokeUser(c, u, cmd.arg1)
    case CAPA => SayOrRetry(c, u, CAPABILITIES)
    case NOOP => Say(c, u, NOOPREPLY, if |NOOPREPLY| <= Free(c) then FINISHED else FAILED)
    case QUIT => InvokeQuit(c, u)
  }

  /** The handlers of the maildrop. */
  function InvokeBox(c: Client, u: UserTable, cmd: ToExecute, junk: MailInfo): Invoked
    requires cmd.callback.Some? && cmd.callback.value in {STAT, DELE, RSET, LIST, RETR}
    requires c.cache.Some? && CacheOk(c.cache.value) && (c.running.Some? ==> cmd == c.running.value)
    requires c.running.Some? && cmd.callback.value == RETR ==> c.cache.value.retr.current.Some?
  {
    match cmd.callback.value
    case STAT => InvokeStat(c, u)
    case DELE => InvokeDele(c, u, Atoi(cmd.arg1))
    case RSET => InvokeRset(c, u)
    case LIST => InvokeList(c, u, cmd.arg1, junk)
    case RETR => InvokeRetr(c, u, cmd.arg1)
  }

  /** One call of the handler of a command. */
  function Invoke(c: Client, u: UserTable, store: Store, cmd: ToExecute, junk: MailInfo): Invoked
    requires ClientOk(c) && c.open && cmd.callback.Some? && Allowed(cmd.callback.value, c.phase)
    requires c.running.Some? ==> cmd == c.running.value
  {
    match cmd.callback.value
    case PASS => InvokePass(c, u, store, cmd.arg1)
    case USER | CAPA | NOOP | QUIT => InvokeLine(c, u, cmd)
    case STAT | DELE | RSET | LIST | RETR => InvokeBox(c, u, cmd, junk)
  }

  // --------------------------------------------------------- the scheduler

  /** What executeFirstCommand does; `started` is the command taken off the queue. */
  datatype Executed = Executed(client: Client, users: UserTable, unlinked: seq<string>, started: Option<ToExecute>)

  function RunCommand(c: Client, u: UserTable, store: Store, cmd: ToExecute, junk: MailInfo):
    (Client, UserTable, seq<string>)
    requires ClientOk(c) && c.open && cmd.callback.Some? && Allowed(cmd.callback.value, c.phase)
    requires c.running.Some? ==> cmd == c.running.value
  {
    var i := Invoke(c, u, store, cmd, junk);
    (i.client.(out := c.out + i.text, running := if i.status == NOT_FINISHED then Some(cmd) else None),
     i.users, i.unlinked)
  }

  function ExecuteFirst(c: Client, u: UserTable, store: Store, junk: MailInfo): Executed
    requires ClientOk(c) && c.open
  {
    if c.running.Some? then
      var (d, u1, gone) := RunCommand(c, u, store, c.running.value, junk);
      Executed(d, u1, gone, None)
    else if Available(c.list) then
      var cmd := Taken(c.list[0]);
      var c1 := c.(list := c.list[1..]);
      if cmd.callback == None then
        Executed(c1.(out := c1.out + INVALIDCOMMAND), u, [], Some(cmd))
      else if !Allowed(cmd.callback.value, c.phase) then
        Executed(c1.(out := c1.out + INVALIDSTATE), u, [], Some(cmd))
      else
        var (d, u1, gone) := RunCommand(c1, u, store, cmd, junk);
        Executed(d, u1, gone, Some(cmd))
    else Executed(c, u, [], None)
  }

  /** closeClient: the slot is wiped and the typed user name is marked as not connected. */
  function Close(c: Client, u: UserTable): (Client, UserTable) { (CLOSED, Toggle(u, c.username, false)) }

  /** writeToClient, `sent` being what send returned. */
  function WriteOut(c: Client, u: UserTable, sent: int): (Client, UserTable)
    requires sent <= |c.out|
  {
    if c.out != "" && sent < 0 then Close(c, u)
    else
      var rest := if c.out == "" then "" else c.out[sent..];
      (c.(out := rest,
          mode := if rest == "" && !Available(c.list) && c.running == None then READING else c.mode), u)
  }

  datatype Received = RecvError | Eof | Data(mem: string)

  /** readFromClient.  Nothing when parsing leaves the receive buffer. */
  function ReadIn(c: Client, u: UserTable, r: Received): Option<(Client, UserTable)>
    requires r.Data? ==> RecvBuffer(r.mem)
  {
    match r
    case RecvError => Some((c, u))
    case Eof => Some(Close(c, u))
    case Data(mem) =>
      match AddDataTo(c.list, mem)
      case None => None
      case Some(list) => Some((c.(list := list, mode := WRITING), u))
  }

  /** The execution part of a writable event: only with more than a line of room. */
  function Fill(c: Client, u: UserTable, store: Store, junk: MailInfo): Executed
    requires ClientOk(c) && c.open
  {
    if Free(c) > MAX_SINGLE_LINE_RESPONSE then ExecuteFirst(c, u, store, junk) else Executed(c, u, [], None)
  }

  /** A QUIT that has been answered completely closes the connection. */
  function Reap(c: Client, u: UserTable): (Client, UserTable) {
    if c.mode == READING && c.phase == UPDATE then Close(c, u) else (c, u)
  }
}
