// Over every run: a mail file is open exactly while a RETR is in progress.

module OpenFiles {
  import opened Standards
  import opened Maildrop
  import opened Commands
  import opened CommandSyntax
  import opened CommandParser
  import opened Users
  import opened Session
  import opened ClientModel
  import opened System

  /** A file is open if and only if the current command is a RETR. */
  predicate FileTidy(c: Client) {
    c.cache.Some? ==>
      (c.cache.value.retr.current.Some? <==> c.running.Some? && c.running.value.callback == Some(RETR))
  }

  /** The client after a call of a handler. */
  function Left(i: Invoked, cmd: ToExecute): Client {
    i.client.(running := if i.status == NOT_FINISHED then Some(cmd) else None)
  }

  ghost predicate Callable(c: Client, cmd: ToExecute) {
    ClientOk(c) && c.open && cmd.callback.Some? && Allowed(cmd.callback.value, c.phase) && FileTidy(c) &&
    (c.running.Some? ==> cmd == c.running.value)
  }

  lemma {:induction false} LineTidy(c: Client, u: UserTable, cmd: ToExecute)
    requires Callable(c, cmd) && cmd.callback.value in {USER, CAPA, NOOP, QUIT} && c.running == None
    ensures FileTidy(Left(InvokeLine(c, u, cmd), cmd))
  {}

  lemma {:induction false} PassTidy(c: Client, u: UserTable, store: Store, cmd: ToExecute)
    requires Callable(c, cmd) && cmd.callback.value == PASS && c.running == None
    ensures FileTidy(Left(InvokePass(c, u, store, cmd.arg1), cmd))
  {}

  lemma {:induction false} ShortTidy(c: Client, u: UserTable, cmd: ToExecute, junk: MailInfo)
    requires Callable(c, cmd) && cmd.callback.value in {STAT, DELE, RSET} && c.running == None
    ensures FileTidy(Left(InvokeBox(c, u, cmd, junk), cmd))
  {}

  lemma {:induction false} ListTidy(c: Client, u: UserTable, cmd: ToExecute, junk: MailInfo)
    requires Callable(c, cmd) && cmd.callback.value == LIST
    ensures FileTidy(Left(InvokeList(c, u, cmd.arg1, junk), cmd))
  {}

  lemma {:induction false} ContinueTidy(k: Cache, room: int)
    requires CacheOk(k) && k.retr.current.Some?
    ensures var (k1, text, status) := ContinueRetr(k, room);
            k1.retr.current.Some? <==> status == NOT_FINISHED
  {}

  lemma {:induction false} RetrAllTidy(k: Cache, room: int, first: bool, n: int)
    requires CacheOk(k) && (k.retr.current.Some? <==> !first)
    ensures var (k1, text, status) := RetrAll(k, room, first, n);
            k1.retr.current.Some? <==> status == NOT_FINISHED
  {
    if !first {
      ContinueTidy(k, room);
    } else if ValidMailNo(k.mails, n) {
      ContinueTidy(OpenMail(k, n).0, RetrLeft(room));
    }
  }

  lemma {:induction false} RetrTidy(c: Client, u: UserTable, cmd: ToExecute)
    requires Callable(c, cmd) && cmd.callback.value == RETR
    ensures FileTidy(Left(InvokeRetr(c, u, cmd.arg1), cmd))
  {
    RetrAllTidy(c.cache.value, Free(c), c.running == None, Atoi(cmd.arg1));
  }

  lemma {:induction false} InvokeTidy(c: Client, u: UserTable, store: Store, cmd: ToExecute, junk: MailInfo)
    requires Callable(c, cmd)
    ensures FileTidy(Left(Invoke(c, u, store, cmd, junk), cmd))
  {
    match cmd.callback.value
    case PASS => PassTidy(c, u, store, cmd);
    case USER | CAPA | NOOP | QUIT => LineTidy(c, u, cmd);
    case STAT | DELE | RSET => ShortTidy(c, u, cmd, junk);
    case LIST => ListTidy(c, u, cmd, junk);
    case RETR => RetrTidy(c, u, cmd);
  }

  lemma {:induction false} RunTidy(c: Client, u: UserTable, store: Store, cmd: ToExecute, junk: MailInfo)
    requires Callable(c, cmd)
    ensures FileTidy(RunCommand(c, u, store, cmd, junk).0)
  {
    InvokeTidy(c, u, store, cmd, junk);
  }

  lemma {:induction false} DequeuedOk(c: Client)
    requires ClientOk(c) && c.mode == WRITING && Available(c.list)
    ensures ClientOk(c.(list := c.list[1..]))
  {
    TailOk(c.list);
  }

  lemma {:induction false} FillTidy(c: Client, u: UserTable, store: Store, junk: MailInfo)
    requires ClientOk(c) && c.open && c.mode == WRITING && FileTidy(c)
    ensures FileTidy(Fill(c, u, store, junk).client)
  {
    if c.running.Some? {
      RunTidy(c, u, store, c.running.value, junk);
    } else if Available(c.list) {
      var cmd, c1 := Taken(c.list[0]), c.(list := c.list[1..]);
      DequeuedOk(c);
      if cmd.callback.Some? && Allowed(cmd.callback.value, c.phase) { RunTidy(c1, u, store, cmd, junk); }
    }
  }

  lemma {:induction false} SendTidy(s: Sys, sent: int)
    requires FileTidy(s.client)
    ensures FileTidy(ReapSys(SendSys(s, sent)).client)
  {}

  lemma {:induction false} ReadTidy(s: Sys, r: Received)
    requires FileTidy(s.client) && (r.Data? ==> RecvBuffer(r.mem))
    ensures FileTidy(ReadSys(s, r).client)
  {}

  /** Every event keeps it. */
  lemma {:induction false} ApplyTidy(s: Sys, e: Event)
    requires SysOk(s) && EventOk(e) && FileTidy(s.client)
    ensures FileTidy(Apply(s, e).client)
  {
    if !s.overrun && s.client.open {
      match e
      case Environment(_, _) =>
      case Readable(r) => ReadTidy(s, r);
      case Writable(junk, sent) =>
        if s.client.mode == WRITING {
          FillTidy(s.client, s.users, s.store, junk);
          SendTidy(Execute(s, junk), sent);
        }
    }
  }

  lemma {:induction false} RunKeepsTidy(s: Sys, es: seq<Event>)
    requires SysOk(s) && EventsOk(es) && FileTidy(s.client)
    ensures FileTidy(Run(s, es).client)
    decreases |es|
  {
    if es != [] {
      ApplyKeeps(s, es[0]);
      ApplyTidy(s, es[0]);
      RunKeepsTidy(Apply(s, es[0]), es[1..]);
    }
  }

  /** Over every run from the start, no file stays open behind its command. */
  lemma {:induction false} FilesTidy(users: UserTable, store: Store, es: seq<Event>)
    requires StoreOk(store) && EventsOk(es)
    ensures SysOk(Start(users, store)) && FileTidy(Run(Start(users, store), es).client)
  {
    StartOk(users, store);
    RunKeepsTidy(Start(users, store), es);
  }
}
