// The server's side of one connection: the handlers on a slot and the
// scheduler that starts and resumes them.  `c` is the slot's value before the
// call and `u` the user table's; each contract gives the values after it.

module Server {
  import opened Standards
  import opened CircularBuffer
  import opened Commands
  import opened CommandSyntax
  import opened CommandParser
  import opened Maildrop
  import opened MailsCache
  import opened Users
  import opened Session
  import opened ClientModel
  import opened Clients
  import opened PopFunctions

  // ----------------------------------------------------- handlers on a slot

  function Added(c: Client, text: string): Client { c.(out := c.out + Put(Free(c), text)) }

  /** writeToOutputBuffer on a slot. */
  method Reply(client: UserData, text: string, ghost c: Client) returns (ok: bool)
    requires client.View() == Some(c)
    modifies client.BufferRepr()
    ensures client.View() == Some(Added(c, text)) && (ok <==> |text| <= Free(c))
  {
    ok := WriteToOutputBuffer(text, client.outputBuff);
  }

  /** The slot as the call `i` leaves it. */
  function AfterCall(c: Client, i: Invoked): Option<Client> { Some(i.client.(out := c.out + i.text)) }

  method CheckValidUsername(client: UserData, users: UserList, name: string, ghost c: Client, ghost u: UserTable)
    returns (status: ExecutionStatus)
    requires client.View() == Some(c)
    modifies client`username, client.BufferRepr()
    ensures (client.View(), status) == (AfterCall(c, InvokeUser(c, u, name)), InvokeUser(c, u, name).status)
    ensures users.State() == old(users.State())
  {
    var ok := ReplyApart(client, users, USERRECEIVED, c);
    if ok {
      client.username := name;
      return FINISHED;
    }
    return NOT_FINISHED;
  }

  // ------------------------------------------------------------------ PASS

  /** The password is looked at before the connected flag. */
  method Authenticate(username: string, users: UserList, password: string) returns (a: Admission)
    requires users.Valid()
    ensures a == Admit(users.Table(), username, password)
  {
    var valid := users.PasswordIsValid(username, password);
    if !valid {
      return BadPassword;
    }
    var connected := users.UserIsConnected(username);
    return if connected then Busy else Welcome;
  }

  /** initCache and the step into the TRANSACTION phase. */
  method OpenMaildrop(client: UserData, store: Store, ghost c: Client)
    requires client.View() == Some(c) && StoreOk(store)
    modifies client`mailCache, client`sessionState
    ensures client.View() == Some(LoggedInto(c, store))
  {
    var cache := new MailCache(BoxOf(store, client.username));
    EnterTransaction(client, cache, c, cache.Abs());
  }

  method EnterTransaction(client: UserData, cache: MailCache, ghost c: Client, ghost k: Cache)
    requires client.View() == Some(c) && cache.Valid() && cache.Abs() == k && client.outputBuff.data !in cache.Repr()
    modifies client`mailCache, client`sessionState
    ensures client.View() == Some(c.(phase := TRANSACTION, cache := Some(k)))
  {
    client.mailCache := cache;
    client.sessionState := TRANSACTION;
  }

  method OpenMaildropApart(client: UserData, users: UserList, store: Store, ghost c: Client)
    requires client.View() == Some(c) && StoreOk(store)
    modifies client`mailCache, client`sessionState
    ensures client.View() == Some(LoggedInto(c, store)) && users.State() == old(users.State())
  {
    OpenMaildrop(client, store, c);
  }

  method ReplyApart(client: UserData, users: UserList, text: string, ghost c: Client) returns (ok: bool)
    requires client.View() == Some(c)
    modifies client.BufferRepr()
    ensures client.View() == Some(Added(c, text)) && (ok <==> |text| <= Free(c))
    ensures users.State() == old(users.State())
  {
    ok := Reply(client, text, c);
  }

  method LogInIf(client: UserData, users: UserList, store: Store, welcome: bool, ghost c: Client, ghost u: UserTable)
    requires client.View() == Some(c) && users.State() == Some(u) && StoreOk(store)
    modifies client`mailCache, client`sessionState, users`entries, users.spine
    ensures client.View() == Some(if welcome then LoggedInto(c, store) else c)
    ensures users.State() == Some(if welcome then Toggle(u, c.username, true) else u)
  {
    if welcome {
      MarkConnected(client, users, client.username, true, c, u);
      OpenMaildropApart(client, users, store, c);
    }
  }

  method CheckValidPassword(client: UserData, password: string, users: UserList, store: Store, ghost c: Client,
                            ghost u: UserTable)
    returns (status: ExecutionStatus)
    requires client.View() == Some(c) && users.State() == Some(u) && StoreOk(store)
    modifies client`mailCache, client`sessionState, client.BufferRepr(), users`entries, users.spine
    ensures var i := InvokePass(c, u, store, password);
            (client.View(), users.State(), status) == (AfterCall(c, i), Some(i.users), i.status)
  {
    var a := Authenticate(client.username, users, password);
    ghost var d := if a == Welcome then LoggedInto(c, store) else c;
    PassIs(c, u, store, password, a, d);
    LogInIf(client, users, store, a == Welcome, c, u);
    var ok := ReplyApart(client, users, AdmissionText(a), d);
    return if ok then FINISHED else NOT_FINISHED;
  }

  lemma {:induction false} PassIs(c: Client, u: UserTable, store: Store, password: string, a: Admission, d: Client)
    requires a == Admit(u, c.username, password)
    requires d == if a == Welcome then LoggedInto(c, store) else c
    ensures var i := InvokePass(c, u, store, password);
            i.text == Put(Free(d), AdmissionText(a)) && i.client == d && i.unlinked == [] && d.out == c.out &&
            i.users == (if a == Welcome then Toggle(u, c.username, true) else u) &&
            i.status == if |AdmissionText(a)| <= Free(d) then FINISHED else NOT_FINISHED
  {}

  // -------------------------------------------------- the maildrop commands

  method MarkOn(client: UserData, users: UserList, mailNo: int, ghost c: Client) returns (ok: bool)
    requires client.View() == Some(c) && c.cache.Some?
    modifies client.mailCache`markedToDelete, client.mailCache.mails
    ensures var (k, done) := MarkMailToDelete(c.cache.value, mailNo);
            (client.View(), ok) == (Some(c.(cache := Some(k))), done)
    ensures users.State() == old(users.State())
  {
    ok := client.mailCache.MarkMail(mailNo);
  }

  method Delete(client: UserData, users: UserList, toDelete: string, ghost c: Client, ghost u: UserTable)
    returns (status: ExecutionStatus)
    requires client.View() == Some(c) && c.cache.Some?
    modifies client.mailCache`markedToDelete, client.mailCache.mails, client.BufferRepr()
    ensures var i := InvokeDele(c, u, Atoi(toDelete)); (client.View(), status) == (AfterCall(c, i), i.status)
    ensures users.State() == old(users.State())
  {
    var ok := MarkOn(client, users, Atoi(toDelete), c);
    ghost var d := c.(cache := Some(MarkMailToDelete(c.cache.value, Atoi(toDelete)).0));
    var _ := ReplyApart(client, users, if ok then MARKED else NOSUCHMAIL, d);
    return if ok then FINISHED else FAILED;
  }

  method ResetOn(client: UserData, users: UserList, ghost c: Client)
    requires client.View() == Some(c) && c.cache.Some?
    modifies client.mailCache`markedToDelete, client.mailCache.mails
    ensures client.View() == Some(c.(cache := Some(ResetToDelete(c.cache.value))))
    ensures users.State() == old(users.State())
  {
    client.mailCache.ResetMarks();
  }

  method Reset(client: UserData, users: UserList, ghost c: Client, ghost u: UserTable) returns (status: ExecutionStatus)
    requires client.View() == Some(c) && c.cache.Some?
    modifies client.mailCache`markedToDelete, client.mailCache.mails, client.BufferRepr()
    ensures var i := InvokeRset(c, u); (client.View(), status) == (AfterCall(c, i), i.status)
    ensures users.State() == old(users.State())
  {
    ResetOn(client, users, c);
    var _ := ReplyApart(client, users, UNMARKED, c.(cache := Some(ResetToDelete(c.cache.value))));
    return FINISHED;
  }

  method Stat(client: UserData, users: UserList, ghost c: Client, ghost u: UserTable) returns (status: ExecutionStatus)
    requires client.View() == Some(c) && c.cache.Some?
    modifies client.BufferRepr()
    ensures var i := InvokeStat(c, u); (client.View(), status) == (AfterCall(c, i), i.status)
    ensures users.State() == old(users.State())
  {
    var size := client.mailCache.GetSizeOfMails();
    var _ := ReplyApart(client, users, StatText(client.mailCache.AmountOfMails(), size), c);
    return FINISHED;
  }

  /** A slot that differs from `c` in the maildrop and in text added. */
  function With(c: Client, k: Cache, text: string): Client { c.(cache := Some(k), out := c.out + text) }

  /** A LIST does not touch the command list. */
  method ListApart(list: CommandList?, users: UserList, cache: MailCache, out: Buffer, first: bool, junk: MailInfo,
                   ghost k0: Cache, ghost base: string, ghost room: int)
    returns (status: ExecutionStatus)
    requires cache.Valid() && out.Valid() && out.data !in cache.Repr()
    requires cache.Abs() == k0 && out.Contents() == base && room == Room(base)
    modifies cache`listIterator, out, out.data
    ensures cache.Valid() && out.Valid()
    ensures var (k, text, st) := ListAll(k0, room, first, junk);
            (cache.Abs(), out.Contents(), status) == (k, base + text, st)
    ensures list != null ==> list.Valid() == old(list.Valid()) && list.Abs() == old(list.Abs())
    ensures users.State() == old(users.State())
  {
    status := ListWithNoArguments(cache, out, first, junk);
  }

  method ListEntries(client: UserData, users: UserList, first: bool, junk: MailInfo, ghost c: Client)
    returns (status: ExecutionStatus)
    requires client.View() == Some(c) && c.cache.Some? && CacheOk(c.cache.value)
    modifies client.mailCache`listIterator, client.BufferRepr()
    ensures var (k, text, st) := ListAll(c.cache.value, Free(c), first, junk);
            (client.View(), status) == (Some(With(c, k, text)), st)
    ensures users.State() == old(users.State())
  {
    status := ListApart(client.commandList, users, client.mailCache, client.outputBuff, first, junk, c.cache.value,
      c.out, Free(c));
    assert client.Shape();
  }

  method ListEntry(client: UserData, users: UserList, mailNo: string, junk: MailInfo, ghost c: Client)
    returns (status: ExecutionStatus)
    requires client.View() == Some(c) && c.cache.Some? && CacheOk(c.cache.value)
    modifies client.BufferRepr()
    ensures var mails, n := c.cache.value.mails, Atoi(mailNo);
            status == (if ValidMailNo(mails, n) then FINISHED else FAILED) &&
            client.View() ==
              Some(Added(c, if ValidMailNo(mails, n) then "+OK " + ListLine(InfoOf(mails, n - 1)) else NOSUCHMESSAGE))
    ensures users.State() == old(users.State())
  {
    status := ListWithArgument(client.mailCache, client.outputBuff, mailNo, junk);
  }

  method List(client: UserData, users: UserList, mailNo: string, junk: MailInfo, ghost c: Client, ghost u: UserTable)
    returns (status: ExecutionStatus)
    requires client.View() == Some(c) && c.cache.Some? && CacheOk(c.cache.value)
    modifies client.mailCache`listIterator, client.BufferRepr()
    ensures var i := InvokeList(c, u, mailNo, junk); (client.View(), status) == (AfterCall(c, i), i.status)
    ensures users.State() == old(users.State())
  {
    if mailNo != "" {
      status := ListEntry(client, users, mailNo, junk, c);
    } else {
      status := ListEntries(client, users, client.commandState == CommandState.AVAILABLE, junk, c);
    }
  }

  /** Nor does a RETR. */
  method RetrieveApart(list: CommandList?, users: UserList, cache: MailCache, out: Buffer, first: bool, mailNo: string,
                       ghost k0: Cache, ghost base: string, ghost room: int)
    returns (status: ExecutionStatus)
    requires cache.Valid() && out.Valid() && out.data !in cache.Repr() && (!first ==> k0.retr.current.Some?)
    requires cache.Abs() == k0 && out.Contents() == base && room == Room(base)
    modifies cache.Repr(), out, out.data
    ensures cache.Valid() && out.Valid()
    ensures var (k, text, st) := RetrAll(k0, room, first, Atoi(mailNo));
            (cache.Abs(), out.Contents(), status) == (k, base + text, st)
    ensures list != null ==> list.Valid() == old(list.Valid()) && list.Abs() == old(list.Abs())
    ensures users.State() == old(users.State())
  {
    assert list != null ==> list !in cache.Repr() && forall n :: n in list.spine ==> n !in cache.Repr();
    assert users !in cache.Repr() && forall n :: n in users.spine ==> n !in cache.Repr();
    status := Retrieve(cache, out, first, mailNo);
  }

  method RetrieveMail(client: UserData, users: UserList, first: bool, mailNo: string, ghost c: Client)
    returns (status: ExecutionStatus)
    requires client.View() == Some(c) && c.cache.Some? && CacheOk(c.cache.value)
    requires !first ==> c.cache.value.retr.current.Some?
    modifies client.mailCache.Repr(), client.BufferRepr()
    ensures var (k, text, st) := RetrAll(c.cache.value, Free(c), first, Atoi(mailNo));
            (client.View(), status) == (Some(With(c, k, text)), st)
    ensures users.State() == old(users.State())
  {
    status := RetrieveApart(client.commandList, users, client.mailCache, client.outputBuff, first, mailNo,
      c.cache.value, c.out, Free(c));
    assert client.Shape();
  }

  method Retr(client: UserData, users: UserList, mailNo: string, ghost c: Client, ghost u: UserTable)
    returns (status: ExecutionStatus)
    requires client.View() == Some(c) && c.cache.Some? && CacheOk(c.cache.value)
    requires c.running.Some? ==> c.cache.value.retr.current.Some?
    modifies client.mailCache.Repr(), client.BufferRepr()
    ensures var i := InvokeRetr(c, u, mailNo); (client.View(), status) == (AfterCall(c, i), i.status)
    ensures users.State() == old(users.State())
  {
    status := RetrieveMail(client, users, client.commandState == CommandState.AVAILABLE, mailNo, c);
  }

  // ------------------------------------------------------------------ QUIT

  /** The files of the marked mails in the TRANSACTION phase, none in any other. */
  ghost predicate GoneByQuit(c: Client, unlinked: seq<string>)
    requires c.phase == TRANSACTION ==> c.cache.Some?
  {
    if c.phase == TRANSACTION then AreMarked(unlinked, c.cache.value.mails) else unlinked == []
  }

  /** deleteMarkedMails in the TRANSACTION phase: the names that are unlinked. */
  method MarkedFiles(client: UserData, ghost c: Client) returns (unlinked: seq<string>)
    requires client.View() == Some(c) && (c.phase == TRANSACTION ==> c.cache.Some?)
    ensures unlinked == if c.phase == TRANSACTION then MarkedNames(c.cache.value.mails) else []
    ensures GoneByQuit(c, unlinked)
  {
    if client.sessionState == TRANSACTION {
      unlinked := client.mailCache.DeleteMarkedMails();
    } else {
      unlinked := [];
    }
  }

  method EnterUpdate(client: UserData, users: UserList, ghost c: Client)
    requires client.View() == Some(c)
    modifies client`sessionState
    ensures client.View() == Some(c.(phase := UPDATE)) && users.State() == old(users.State())
  {
    client.sessionState := UPDATE;
  }

  method Quit(client: UserData, users: UserList, ghost c: Client, ghost u: UserTable)
    returns (status: ExecutionStatus, unlinked: seq<string>)
    requires client.View() == Some(c) && (c.phase == TRANSACTION ==> c.cache.Some?)
    modifies client`sessionState, client.BufferRepr()
    ensures var i := InvokeQuit(c, u); (client.View(), status, unlinked) == (AfterCall(c, i), i.status, i.unlinked)
    ensures GoneByQuit(c, unlinked)
    ensures users.State() == old(users.State())
  {
    unlinked := MarkedFiles(client, c);
    var _ := ReplyApart(client, users, EXITING, c);
    EnterUpdate(client, users, Added(c, EXITING));
    return FINISHED, unlinked;
  }

  // -------------------------------------------------------- the scheduler

  /** noop and capa: one text, and what the status is if there is no room. */
  method AnswerWith(client: UserData, users: UserList, text: string, otherwise: ExecutionStatus, ghost c: Client,
                    ghost u: UserTable)
    returns (status: ExecutionStatus)
    requires client.View() == Some(c)
    modifies client.BufferRepr()
    ensures var i := Say(c, u, text, if |text| <= Free(c) then FINISHED else otherwise);
            (client.View(), status) == (AfterCall(c, i), i.status)
    ensures users.State() == old(users.State())
  {
    var ok := ReplyApart(client, users, text, c);
    return if ok then FINISHED else otherwise;
  }

  /** A call the scheduler can make. */
  ghost predicate Callable(c: Client, cmd: ToExecute) {
    ClientOk(c) && c.open && cmd.callback.Some? && Allowed(cmd.callback.value, c.phase) &&
    (c.running.Some? ==> cmd == c.running.value)
  }

  /** The handlers that only answer, and QUIT. */
  method CallLineHandler(client: UserData, users: UserList, cmd: ToExecute, ghost c: Client, ghost u: UserTable,
                         ghost i: Invoked)
    returns (status: ExecutionStatus, unlinked: seq<string>)
    requires client.View() == Some(c) && Callable(c, cmd) && cmd.callback.value in {USER, CAPA, NOOP, QUIT}
    requires i == InvokeLine(c, u, cmd)
    modifies client`username, client`sessionState, client.BufferRepr()
    ensures (client.View(), status, unlinked) == (AfterCall(c, i), i.status, i.unlinked)
    ensures users.State() == old(users.State())
  {
    unlinked := [];
    match cmd.callback.value
    case USER => status := CheckValidUsername(client, users, cmd.arg1, c, u);
    case CAPA => status := AnswerWith(client, users, CAPABILITIES, NOT_FINISHED, c, u);
    case NOOP => status := AnswerWith(client, users, NOOPREPLY, FAILED, c, u);
    case QUIT => status, unlinked := Quit(client, users, c, u);
  }

  /** The handlers of the maildrop. */
  method CallBoxHandler(client: UserData, users: UserList, cmd: ToExecute, junk: MailInfo, ghost c: Client,
                        ghost u: UserTable, ghost i: Invoked)
    returns (status: ExecutionStatus)
    requires client.View() == Some(c) && Callable(c, cmd) && cmd.callback.value in {STAT, DELE, RSET, LIST, RETR}
    requires i == InvokeBox(c, u, cmd, junk)
    modifies client.CacheRepr(), client.BufferRepr()
    ensures (client.View(), status) == (AfterCall(c, i), i.status)
    ensures users.State() == old(users.State())
  {
    match cmd.callback.value
    case STAT => status := Stat(client, users, c, u);
    case DELE => status := Delete(client, users, cmd.arg1, c, u);
    case RSET => status := Reset(client, users, c, u);
    case LIST => status := List(client, users, cmd.arg1, junk, c, u);
    case RETR => status := Retr(client, users, cmd.arg1, c, u);
  }

  /** command->callback.execute_command(...) */
  method CallHandler(client: UserData, users: UserList, store: Store, cmd: ToExecute, junk: MailInfo,
                     ghost c: Client, ghost u: UserTable)
    returns (status: ExecutionStatus, unlinked: seq<string>)
    requires client.View() == Some(c) && users.State() == Some(u) && StoreOk(store)
    requires Callable(c, cmd)
    modifies client`username, client`sessionState, client`mailCache, client.CacheRepr(), client.BufferRepr(),
      users`entries, users.spine
    ensures var i := Invoke(c, u, store, cmd, junk);
            (client.View(), users.State(), status, unlinked) == (AfterCall(c, i), Some(i.users), i.status, i.unlinked)
  {
    ghost var i := Invoke(c, u, store, cmd, junk);
    match cmd.callback.value
    case PASS =>
      assert i == InvokePass(c, u, store, cmd.arg1) && i.unlinked == [];
      status := CheckValidPassword(client, cmd.arg1, users, store, c, u);
      unlinked := [];
    case USER | CAPA | NOOP | QUIT =>
      assert i == InvokeLine(c, u, cmd) && i.users == u;
      status, unlinked := CallLineHandler(client, users, cmd, c, u, i);
    case STAT | DELE | RSET | LIST | RETR =>
      assert i == InvokeBox(c, u, cmd, junk) && i.users == u && i.unlinked == [];
      status := CallBoxHandler(client, users, cmd, junk, c, u, i);
      unlinked := [];
  }

  /** Records whether the current command is over. */
  method SetRunning(client: UserData, cmd: ToExecute, status: ExecutionStatus, ghost c: Client)
    requires client.View() == Some(c)
    modifies client`commandState, client`currentCommand
    ensures client.View() == Some(c.(running := if status == NOT_FINISHED then Some(cmd) else None))
  {
    client.currentCommand := Some(cmd);
    client.commandState := if status == NOT_FINISHED then PROCESSING else CommandState.AVAILABLE;
  }

  method SetRunningApart(client: UserData, users: UserList, cmd: ToExecute, status: ExecutionStatus, ghost c: Client)
    requires client.View() == Some(c)
    modifies client`commandState, client`currentCommand
    ensures client.View() == Some(c.(running := if status == NOT_FINISHED then Some(cmd) else None))
    ensures users.State() == old(users.State())
  {
    SetRunning(client, cmd, status, c);
  }

  method RunCurrent(client: UserData, users: UserList, store: Store, cmd: ToExecute, junk: MailInfo, ghost c: Client,
                    ghost u: UserTable)
    returns (unlinked: seq<string>)
    requires client.View() == Some(c) && users.State() == Some(u) && StoreOk(store)
    requires Callable(c, cmd)
    modifies client, client.CacheRepr(), client.BufferRepr(), users`entries, users.spine
    ensures var (d, u1, gone) := RunCommand(c, u, store, cmd, junk);
            (client.View(), users.State(), unlinked) == (Some(d), Some(u1), gone)
  {
    ghost var i := Invoke(c, u, store, cmd, junk);
    var status;
    status, unlinked := CallHandler(client, users, store, cmd, junk, c, u);
    SetRunningApart(client, users, cmd, status, i.client.(out := c.out + i.text));
  }

  /** getFirstCommand on a slot. */
  method TakeFirst(client: UserData, ghost c: Client) returns (cmd: Option<ToExecute>)
    requires client.View() == Some(c) && c.open
    modifies client.commandList
    ensures cmd == if Available(c.list) then Some(Taken(c.list[0])) else None
    ensures client.View() == Some(if Available(c.list) then c.(list := c.list[1..]) else c)
  {
    cmd := GetFirstCommand(client.commandList);
    if Available(c.list) { TailOk(c.list); }
  }

  method TakeFirstApart(client: UserData, users: UserList, ghost c: Client) returns (cmd: Option<ToExecute>)
    requires client.View() == Some(c) && c.open
    modifies client.commandList
    ensures cmd == if Available(c.list) then Some(Taken(c.list[0])) else None
    ensures client.View() == Some(if Available(c.list) then c.(list := c.list[1..]) else c)
    ensures users.State() == old(users.State())
  {
    cmd := TakeFirst(client, c);
  }

  /** The refusals are written without asking for room; there always is. */
  method Refuse(client: UserData, users: UserList, text: string, ghost c: Client)
    requires client.View() == Some(c) && |text| <= Free(c)
    modifies client.BufferRepr()
    ensures client.View() == Some(c.(out := c.out + text)) && users.State() == old(users.State())
  {
    var fatal := client.outputBuff.WriteDataToBuffer(text);
    assert !fatal;
  }

  /** A command that has just been taken off the list. */
  method StartCommand(client: UserData, users: UserList, store: Store, cmd: ToExecute, junk: MailInfo,
                      ghost c: Client, ghost u: UserTable)
    returns (unlinked: seq<string>)
    requires client.View() == Some(c) && users.State() == Some(u) && StoreOk(store)
    requires ClientOk(c) && c.open && c.running == None && Free(c) > MAX_SINGLE_LINE_RESPONSE
    modifies client, client.CacheRepr(), client.BufferRepr(), users`entries, users.spine
    ensures var (d, u1, gone) := Start(c, u, store, cmd, junk);
            (client.View(), users.State(), unlinked) == (Some(d), Some(u1), gone)
  {
    if cmd.callback == None {
      Refuse(client, users, INVALIDCOMMAND, c);
      return [];
    }
    if !Allowed(cmd.callback.value, client.sessionState) {
      Refuse(client, users, INVALIDSTATE, c);
      return [];
    }
    unlinked := RunCurrent(client, users, store, cmd, junk, c, u);
  }

  /** How a command that has just been dequeued is dealt with. */
  function Start(c: Client, u: UserTable, store: Store, cmd: ToExecute, junk: MailInfo):
    (Client, UserTable, seq<string>)
    requires ClientOk(c) && c.open && c.running == None
  {
    if cmd.callback == None then (c.(out := c.out + INVALIDCOMMAND), u, [])
    else if !Allowed(cmd.callback.value, c.phase) then (c.(out := c.out + INVALIDSTATE), u, [])
    else RunCommand(c, u, store, cmd, junk)
  }

  /** What the client becomes when its first command is dequeued is fit to run it. */
  lemma {:induction false} DequeuedOk(c: Client)
    requires ClientOk(c) && c.open && c.running == None && Available(c.list)
    ensures ClientOk(c.(list := c.list[1..])) && c.mode == WRITING
  {
    TailOk(c.list);
  }

  lemma {:induction false} ExecuteFirstIs(c: Client, u: UserTable, store: Store, junk: MailInfo)
    requires ClientOk(c) && c.open
    ensures var x := ExecuteFirst(c, u, store, junk);
            (x.client, x.users, x.unlinked) ==
              if c.running.Some? then RunCommand(c, u, store, c.running.value, junk)
              else if Available(c.list) then
                (DequeuedOk(c); Start(c.(list := c.list[1..]), u, store, Taken(c.list[0]), junk))
              else (c, u, [])
  {}

  /** executeFirstCommand */
  method ExecuteFirstCommand(client: UserData, users: UserList, store: Store, junk: MailInfo, ghost c: Client,
                             ghost u: UserTable)
    returns (unlinked: seq<string>)
    requires client.View() == Some(c) && users.State() == Some(u) && StoreOk(store)
    requires ClientOk(c) && c.open && Free(c) > MAX_SINGLE_LINE_RESPONSE
    modifies client, client.commandList, client.CacheRepr(), client.BufferRepr(), users`entries, users.spine
    ensures var x := ExecuteFirst(c, u, store, junk);
            (client.View(), users.State(), unlinked) == (Some(x.client), Some(x.users), x.unlinked)
  {
    ExecuteFirstIs(c, u, store, junk);
    if client.commandState == PROCESSING {
      unlinked := RunCurrent(client, users, store, client.currentCommand.value, junk, c, u);
      return;
    }
    var cmd := TakeFirstApart(client, users, c);
    if cmd == None {
      return [];
    }
    DequeuedOk(c);
    unlinked := StartCommand(client, users, store, cmd.value, junk, c.(list := c.list[1..]), u);
  }
}
