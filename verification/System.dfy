// Runs of one connection under any schedule of events, with the history that
// says what they mean: what was sent, which commands were taken off the queue
// and what was queued for each of them.

module System {
  import opened Standards
  import opened Maildrop
  import opened Commands
  import opened CommandSyntax
  import opened CommandParser
  import opened Users
  import opened Session
  import opened ClientModel
  import opened Invocation

  /** `sent` is what send returned, never more than it was given; `junk` is the
      initial content of the entry variable of LIST.  Other clients and the
      monitoring protocol change the user table, others the mail directories. */
  datatype Event =
    | Writable(junk: MailInfo, sent: int)
    | Readable(received: Received)
    | Environment(users: UserTable, store: Store)

  /** `sent` and `lost` are the bytes that left the buffer to the client and
      with a wiped slot; `taken` the nodes taken off the queue; `heard` the
      receive buffers parsed; `overrun` that a scan has left its buffer, from
      where on the source says nothing and the record stays as it is. */
  datatype Sys = Sys(client: Client, users: UserTable, store: Store,
                     log: seq<Exchange>, sent: string, lost: string, unlinked: seq<string>,
                     taken: seq<Cmd>, heard: seq<string>, overrun: bool)

  function Start(users: UserTable, store: Store): Sys {
    Sys(ACCEPTED, users, store, [], "", "", [], [], [], false)
  }

  // ---------------------------------------------------------------- history

  function Replies(log: seq<Exchange>): string {
    if log == [] then "" else Replies(log[..|log| - 1]) + log[|log| - 1].reply
  }

  ghost predicate Sessions(log: seq<Exchange>) {
    log == [] || (Sessions(log[..|log| - 1]) && SessionOk(log[|log| - 1].before))
  }

  /** The session after all these commands. */
  function After(log: seq<Exchange>): Session
    requires Sessions(log)
  {
    if log == [] then NEWSESSION else Expected(log[|log| - 1]).session
  }

  /** Each command meets the session its predecessor left. */
  ghost predicate Chain(log: seq<Exchange>)
    ensures Chain(log) ==> Sessions(log)
  {
    log == [] ||
    (Chain(log[..|log| - 1]) && SessionOk(log[|log| - 1].before) && log[|log| - 1].before == After(log[..|log| - 1]))
  }

  function UnlinkedBy(log: seq<Exchange>): seq<string>
    requires Sessions(log)
  {
    if log == [] then [] else UnlinkedBy(log[..|log| - 1]) + Expected(log[|log| - 1]).unlinked
  }

  /** The list that parsing everything that was received gives. */
  function HeardList(heard: seq<string>): Option<seq<Cmd>>
    requires forall i :: 0 <= i < |heard| ==> RecvBuffer(heard[i])
  {
    if heard == [] then Some([])
    else
      match HeardList(heard[..|heard| - 1])
      case None => None
      case Some(list) => AddDataTo(list, heard[|heard| - 1])
  }

  ghost predicate LogOk(s: Sys) {
    Chain(s.log) && s.unlinked == UnlinkedBy(s.log) &&
    (forall i :: 0 <= i < |s.log| ==> (s.log[i].over ==> Right(s.log[i])) && StoreOk(s.log[i].request.store)) &&
    (forall i :: 0 <= i < |s.log| - 1 ==> s.log[i].over)
  }

  ghost predicate QueueOk(s: Sys) {
    (forall i :: 0 <= i < |s.heard| ==> RecvBuffer(s.heard[i])) &&
    HeardList(s.heard) == Some(s.taken + s.client.list) &&
    |s.taken| == |s.log| && (forall i :: 0 <= i < |s.taken| ==> Done(s.taken[i])) &&
    (forall i :: 0 <= i < |s.log| ==> s.log[i].request.cmd == Taken(s.taken[i]))
  }

  ghost predicate OpenOk(s: Sys) {
    s.client.open ==>
      Chain(s.log) && s.lost == "" && SessionOf(s.client) == After(s.log) && QueueOk(s) &&
      (s.log != [] ==> (s.log[|s.log| - 1].over <==> s.client.running == None)) &&
      (s.client.running.Some? ==> s.log != [] && InProgress(s.client, s.log[|s.log| - 1]))
  }

  /** The invariant of every run. */
  ghost predicate SysOk(s: Sys) {
    ClientOk(s.client) && StoreOk(s.store) && LogOk(s) && OpenOk(s) &&
    s.sent + s.client.out + s.lost == GREETING + Replies(s.log)
  }

  lemma {:induction false} StartOk(users: UserTable, store: Store)
    requires StoreOk(store)
    ensures SysOk(Start(users, store))
  {
    assert "" + GREETING + "" == GREETING + "";
    assert Start(users, store).taken + ACCEPTED.list == [];
  }

  // ----------------------------------------------------------- executing

  /** The exchange that a freshly dequeued command starts. */
  function Started(c: Client, u: UserTable, store: Store, junk: MailInfo): Exchange
    requires ClientOk(c) && c.open && c.running == None && Available(c.list)
  {
    var cmd := Taken(c.list[0]);
    var c1 := c.(list := c.list[1..]);
    if cmd.callback == None then Exchange(SessionOf(c), Request(cmd, u, store), INVALIDCOMMAND, true, true)
    else if !Allowed(cmd.callback.value, c.phase) then
      Exchange(SessionOf(c), Request(cmd, u, store), INVALIDSTATE, true, true)
    else FirstExchange(c1, u, store, cmd, Invoke(c1, u, store, cmd, junk))
  }

  /** The execution part of a writable event, with its history. */
  function Execute(s: Sys, junk: MailInfo): Sys
    requires SysOk(s) && s.client.open
  {
    var c := s.client;
    var x := Fill(c, s.users, s.store, junk);
    var s1 := s.(client := x.client, users := x.users, unlinked := s.unlinked + x.unlinked);
    if Free(c) <= MAX_SINGLE_LINE_RESPONSE then s1
    else if c.running.Some? then
      var e := s.log[|s.log| - 1];
      s1.(log := s.log[..|s.log| - 1] + [NextExchange(c, e, Invoke(c, s.users, s.store, e.request.cmd, junk))])
    else if Available(c.list) then
      s1.(log := s.log + [Started(c, s.users, s.store, junk)], taken := s.taken + [c.list[0]])
    else s1
  }

  /** Replacing the last exchange by one with more text and the same meaning. */
  lemma {:induction false} ReplaceLast(log: seq<Exchange>, e1: Exchange, text: string)
    requires log != [] && Chain(log)
    requires var e := log[|log| - 1]; e1 == e.(reply := e.reply + text, over := e1.over, whole := e1.whole)
    ensures var log1 := log[..|log| - 1] + [e1];
            Chain(log1) && After(log1) == After(log) && UnlinkedBy(log1) == UnlinkedBy(log) &&
            Replies(log1) == Replies(log) + text
  {
    var k := |log| - 1;
    var log1 := log[..k] + [e1];
    assert log1[..k] == log[..k] && log1[k] == e1;
    assert Replies(log[..k]) + (log[k].reply + text) == Replies(log[..k]) + log[k].reply + text;
  }

  lemma {:induction false} ExtendLog(log: seq<Exchange>, e: Exchange)
    requires Chain(log) && SessionOk(e.before) && e.before == After(log)
    ensures var log1 := log + [e];
            Chain(log1) && After(log1) == Expected(e).session &&
            UnlinkedBy(log1) == UnlinkedBy(log) + Expected(e).unlinked && Replies(log1) == Replies(log) + e.reply
  {
    var log1 := log + [e];
    assert log1[..|log|] == log && log1[|log|] == e;
  }

  /** The client after a handler call is a good one. */
  lemma {:induction false} ClientKept(c: Client, u: UserTable, i: Invoked, cmd: ToExecute, e: Exchange)
    requires ClientOk(c) && c.open && c.mode == WRITING && CallOk(c, u, i, cmd, e)
    ensures ClientOk(i.client.(out := c.out + i.text, running := if i.status == NOT_FINISHED then Some(cmd) else None))
  {}

  lemma {:induction false} Flow(sent: string, out: string, text: string, replies: string)
    requires sent + out + "" == GREETING + replies
    ensures sent + (out + text) + "" == GREETING + (replies + text)
  {
    assert sent + (out + text) + "" == (sent + out + "") + text;
    assert GREETING + (replies + text) == (GREETING + replies) + text;
  }

  lemma {:induction false} ExecuteResumed(s: Sys, junk: MailInfo, e: Exchange, i: Invoked)
    requires SysOk(s) && s.client.open && s.client.running.Some? && Free(s.client) > MAX_SINGLE_LINE_RESPONSE
    requires e == s.log[|s.log| - 1] && i == Invoke(s.client, s.users, s.store, e.request.cmd, junk)
    ensures Execute(s, junk) ==
      s.(client := i.client.(out := s.client.out + i.text,
                             running := if i.status == NOT_FINISHED then Some(e.request.cmd) else None),
         users := i.users, unlinked := s.unlinked + i.unlinked,
         log := s.log[..|s.log| - 1] + [NextExchange(s.client, e, i)])
  {}

  /** A resumed call keeps the invariant. */
  lemma {:induction false} ResumeKeeps(s: Sys, junk: MailInfo)
    requires SysOk(s) && s.client.open && s.client.mode == WRITING && s.client.running.Some?
    requires Free(s.client) > MAX_SINGLE_LINE_RESPONSE
    ensures SysOk(Execute(s, junk)) && Execute(s, junk).client.open && Execute(s, junk).client.mode == WRITING
  {
    var c, e := s.client, s.log[|s.log| - 1];
    var i := Invoke(c, s.users, s.store, e.request.cmd, junk);
    ExecuteResumed(s, junk, e, i);
    ResumedCall(c, s.users, s.store, e, junk);
    AfterResumed(s, i, NextExchange(c, e, i), Execute(s, junk));
  }

  lemma {:induction false} AfterResumed(s: Sys, i: Invoked, e1: Exchange, t: Sys)
    requires SysOk(s) && s.client.open && s.client.mode == WRITING && s.client.running.Some?
    requires CallOk(s.client, s.users, i, e1.request.cmd, e1) && i.unlinked == [] && i.users == s.users
    requires var e := s.log[|s.log| - 1];
             Expected(e).session == e.before &&
             e1 == e.(reply := e.reply + i.text, over := i.status != NOT_FINISHED, whole := e1.whole)
    requires t == s.(client := i.client.(out := s.client.out + i.text,
                                         running := if i.status == NOT_FINISHED then Some(e1.request.cmd) else None),
                     unlinked := s.unlinked + [], log := s.log[..|s.log| - 1] + [e1])
    ensures SysOk(t) && t.client.open && t.client.mode == WRITING
  {
    ReplaceLast(s.log, e1, i.text);
    ClientKept(s.client, s.users, i, e1.request.cmd, e1);
    Flow(s.sent, s.client.out, i.text, Replies(s.log));
    ResumedOk(s, i, e1, t);
  }

  lemma {:induction false} ResumedOk(s: Sys, i: Invoked, e1: Exchange, t: Sys)
    requires SysOk(s) && s.client.open && s.client.mode == WRITING && s.client.running.Some?
    requires CallOk(s.client, s.users, i, e1.request.cmd, e1) && i.unlinked == [] && i.users == s.users
    requires var e := s.log[|s.log| - 1];
             Expected(e).session == e.before &&
             e1 == e.(reply := e.reply + i.text, over := i.status != NOT_FINISHED, whole := e1.whole)
    requires t == s.(client := i.client.(out := s.client.out + i.text,
                                         running := if i.status == NOT_FINISHED then Some(e1.request.cmd) else None),
                     unlinked := s.unlinked + [], log := s.log[..|s.log| - 1] + [e1])
    requires Chain(t.log) && After(t.log) == After(s.log) && UnlinkedBy(t.log) == UnlinkedBy(s.log)
    requires t.sent + t.client.out + "" == GREETING + Replies(t.log) && ClientOk(t.client)
    ensures SysOk(t)
  {
    assert s.unlinked + [] == s.unlinked;
    ResumedLog(s, e1, t);
    QueueSame(s, t);
  }

  lemma {:induction false} ResumedLog(s: Sys, e1: Exchange, t: Sys)
    requires LogOk(s) && s.log != [] && Chain(t.log) && UnlinkedBy(t.log) == UnlinkedBy(s.log) &&
             t.unlinked == s.unlinked
    requires t.log == s.log[..|s.log| - 1] + [e1] && e1.request == s.log[|s.log| - 1].request
    requires e1.over ==> Right(e1)
    ensures LogOk(t)
    ensures |t.log| == |s.log| && forall j :: 0 <= j < |s.log| ==> t.log[j].request == s.log[j].request
  {
    assert forall j :: 0 <= j < |s.log| - 1 ==> t.log[j] == s.log[j];
  }

  lemma {:induction false} QueueSame(s: Sys, t: Sys)
    requires QueueOk(s) && t.heard == s.heard && t.taken == s.taken && t.client.list == s.client.list
    requires |t.log| == |s.log| && forall j :: 0 <= j < |s.log| ==> t.log[j].request == s.log[j].request
    ensures QueueOk(t)
  {}

  /** What taking the first command off the queue must establish. */
  ghost predicate StartedOk(s: Sys, t: Sys, e: Exchange) {
    var c, d := s.client, t.client;
    SessionOk(e.before) && Available(c.list) &&
    t == s.(client := d, users := t.users, unlinked := s.unlinked + Expected(e).unlinked,
            log := s.log + [e], taken := s.taken + [c.list[0]]) &&
    e.before == SessionOf(c) && e.request == Request(Taken(c.list[0]), s.users, s.store) && StoreOk(s.store) &&
    t.users == Expected(e).users &&
    d == c.(list := c.list[1..], out := c.out + e.reply, phase := d.phase, username := d.username,
            running := d.running, cache := d.cache) &&
    ClientOk(d) && SessionOf(d) == Expected(e).session &&
    (e.over <==> d.running == None) && (e.over ==> Right(e)) && (!e.over ==> InProgress(d, e))
  }

  lemma {:induction false} StartedKeeps(s: Sys, t: Sys, e: Exchange)
    requires SysOk(s) && s.client.open && s.client.running == None && StartedOk(s, t, e)
    ensures SysOk(t) && t.client.open && t.client.mode == s.client.mode
  {
    ExtendLog(s.log, e);
    Flow(s.sent, s.client.out, e.reply, Replies(s.log));
    StartedQueue(s, t, e);
    LogExtended(s, t, e);
  }

  lemma {:induction false} StartedQueue(s: Sys, t: Sys, e: Exchange)
    requires QueueOk(s) && Available(s.client.list) && ListOk(s.client.list)
    requires t.heard == s.heard && t.taken == s.taken + [s.client.list[0]] && t.client.list == s.client.list[1..]
    requires t.log == s.log + [e] && e.request.cmd == Taken(s.client.list[0])
    ensures QueueOk(t)
  {
    var list := s.client.list;
    TailOk(list);
    assert (s.taken + [list[0]]) + list[1..] == s.taken + list;
  }

  lemma {:induction false} LogExtended(s: Sys, t: Sys, e: Exchange)
    requires LogOk(s) && Chain(t.log) && t.log == s.log + [e] && t.unlinked == UnlinkedBy(t.log)
    requires s.log != [] ==> s.log[|s.log| - 1].over
    requires (e.over ==> Right(e)) && StoreOk(e.request.store)
    ensures LogOk(t)
  {
    forall i | 0 <= i < |t.log| ensures (t.log[i].over ==> Right(t.log[i])) && StoreOk(t.log[i].request.store) {
      if i < |s.log| { assert t.log[i] == s.log[i]; }
    }
    forall i | 0 <= i < |t.log| - 1 ensures t.log[i].over {
      assert t.log[i] == s.log[i];
    }
  }

  /** A command that is refused: unknown, or not for this phase. */
  lemma {:induction false} RefuseKeeps(s: Sys, junk: MailInfo)
    requires SysOk(s) && s.client.open && s.client.mode == WRITING && s.client.running == None
    requires Available(s.client.list) && Free(s.client) > MAX_SINGLE_LINE_RESPONSE
    requires var cmd := Taken(s.client.list[0]); cmd.callback == None || !Allowed(cmd.callback.value, s.client.phase)
    ensures StartedOk(s, Execute(s, junk), Started(s.client, s.users, s.store, junk))
  {
    TailOk(s.client.list);
    assert s.unlinked + [] == s.unlinked;
  }

  lemma {:induction false} ExecuteStarted(s: Sys, junk: MailInfo, cmd: ToExecute, c1: Client, i: Invoked)
    requires SysOk(s) && s.client.open && s.client.running == None && Available(s.client.list)
    requires Free(s.client) > MAX_SINGLE_LINE_RESPONSE && cmd == Taken(s.client.list[0])
    requires cmd.callback.Some? && Allowed(cmd.callback.value, s.client.phase)
    requires c1 == s.client.(list := s.client.list[1..]) && ClientOk(c1) && i == Invoke(c1, s.users, s.store, cmd, junk)
    ensures Execute(s, junk) ==
      s.(client := i.client.(out := s.client.out + i.text,
                             running := if i.status == NOT_FINISHED then Some(cmd) else None),
         users := i.users, unlinked := s.unlinked + i.unlinked,
         log := s.log + [FirstExchange(c1, s.users, s.store, cmd, i)], taken := s.taken + [s.client.list[0]])
    ensures Started(s.client, s.users, s.store, junk) == FirstExchange(c1, s.users, s.store, cmd, i)
  {}

  /** Taking a command off the queue and making its first call keeps the invariant. */
  lemma {:induction false} StartKeeps(s: Sys, junk: MailInfo)
    requires SysOk(s) && s.client.open && s.client.mode == WRITING && s.client.running == None
    requires Available(s.client.list) && Free(s.client) > MAX_SINGLE_LINE_RESPONSE
    ensures SysOk(Execute(s, junk)) && Execute(s, junk).client.open && Execute(s, junk).client.mode == WRITING
  {
    StartIs(s, junk);
    StartedKeeps(s, Execute(s, junk), Started(s.client, s.users, s.store, junk));
  }

  lemma {:induction false} StartIs(s: Sys, junk: MailInfo)
    requires SysOk(s) && s.client.open && s.client.mode == WRITING && s.client.running == None
    requires Available(s.client.list) && Free(s.client) > MAX_SINGLE_LINE_RESPONSE
    ensures StartedOk(s, Execute(s, junk), Started(s.client, s.users, s.store, junk))
  {
    var c, cmd := s.client, Taken(s.client.list[0]);
    var c1 := c.(list := c.list[1..]);
    TailOk(c.list);
    if cmd.callback == None || !Allowed(cmd.callback.value, c.phase) {
      RefuseKeeps(s, junk);
    } else {
      var i := Invoke(c1, s.users, s.store, cmd, junk);
      ExecuteStarted(s, junk, cmd, c1, i);
      FirstCall(c1, s.users, s.store, cmd, junk);
      ClientKept(c1, s.users, i, cmd, FirstExchange(c1, s.users, s.store, cmd, i));
      StartedByCall(s, Execute(s, junk), i, cmd, FirstExchange(c1, s.users, s.store, cmd, i));
    }
  }

  lemma {:induction false} StartedByCall(s: Sys, t: Sys, i: Invoked, cmd: ToExecute, e: Exchange)
    requires Available(s.client.list) && cmd == Taken(s.client.list[0])
    requires var c1 := s.client.(list := s.client.list[1..]);
             s.client.mode == WRITING && CallOk(c1, s.users, i, cmd, e) && e.before == SessionOf(c1)
    requires e == Exchange(e.before, Request(cmd, s.users, s.store), i.text, i.status != NOT_FINISHED, e.whole)
    requires i.unlinked == Expected(e).unlinked && i.users == Expected(e).users && StoreOk(s.store)
    requires t == s.(client := i.client.(out := s.client.out + i.text,
                                         running := if i.status == NOT_FINISHED then Some(cmd) else None),
                     users := i.users, unlinked := s.unlinked + i.unlinked, log := s.log + [e],
                     taken := s.taken + [s.client.list[0]])
    requires ClientOk(t.client)
    ensures StartedOk(s, t, e)
  {}

  /** What the execution part does to the session, the user table and the files:
      nothing, or all that the reference says of the command that is dequeued. */
  lemma {:induction false} ExecuteDoes(s: Sys, junk: MailInfo)
    requires SysOk(s) && s.client.open && s.client.mode == WRITING
    ensures var c, t := s.client, Execute(s, junk);
            if Free(c) > MAX_SINGLE_LINE_RESPONSE && c.running == None && Available(c.list) then
              var o := Respond(SessionOf(c), Request(Taken(c.list[0]), s.users, s.store));
              SessionOf(t.client) == o.session && t.users == o.users && t.unlinked == s.unlinked + o.unlinked
            else SessionOf(t.client) == SessionOf(c) && t.users == s.users && t.unlinked == s.unlinked
  {
    var c := s.client;
    if Free(c) > MAX_SINGLE_LINE_RESPONSE && c.running.Some? {
      ResumeDoes(s, junk);
    } else if Free(c) > MAX_SINGLE_LINE_RESPONSE && Available(c.list) {
      StartIs(s, junk);
    } else {
      assert s.unlinked + [] == s.unlinked;
    }
  }

  lemma {:induction false} ResumeDoes(s: Sys, junk: MailInfo)
    requires SysOk(s) && s.client.open && s.client.mode == WRITING && s.client.running.Some?
    requires Free(s.client) > MAX_SINGLE_LINE_RESPONSE
    ensures var t := Execute(s, junk);
            SessionOf(t.client) == SessionOf(s.client) && t.users == s.users && t.unlinked == s.unlinked
  {
    var c, e := s.client, s.log[|s.log| - 1];
    var i := Invoke(c, s.users, s.store, e.request.cmd, junk);
    ExecuteResumed(s, junk, e, i);
    ResumedCall(c, s.users, s.store, e, junk);
    SameSession(s, e, i, Execute(s, junk));
  }

  lemma {:induction false} SameSession(s: Sys, e: Exchange, i: Invoked, t: Sys)
    requires InProgress(s.client, e) && LaterOk(s.client, s.users, e, i)
    requires SessionOf(t.client) == SessionOf(i.client) && t.users == i.users && t.unlinked == s.unlinked + i.unlinked
    ensures SessionOf(t.client) == SessionOf(s.client) && t.users == s.users && t.unlinked == s.unlinked
  {
    assert s.unlinked + [] == s.unlinked;
  }

  /** The execution part of a writable event keeps the invariant. */
  lemma {:induction false} ExecuteKeeps(s: Sys, junk: MailInfo)
    requires SysOk(s) && s.client.open && s.client.mode == WRITING
    ensures SysOk(Execute(s, junk)) && Execute(s, junk).client.open && Execute(s, junk).client.mode == WRITING
  {
    var c := s.client;
    if Free(c) > MAX_SINGLE_LINE_RESPONSE && c.running.Some? {
      ResumeKeeps(s, junk);
    } else if Free(c) > MAX_SINGLE_LINE_RESPONSE && Available(c.list) {
      StartKeeps(s, junk);
    } else {
      assert s.unlinked + [] == s.unlinked;
      assert Execute(s, junk) == s;
    }
  }

  // ------------------------------------------------- sending and receiving

  /** closeClient, with what was still buffered counted as lost. */
  function CloseSys(s: Sys): Sys {
    var (c, u) := Close(s.client, s.users);
    s.(client := c, users := u, lost := s.lost + s.client.out)
  }

  function SendSys(s: Sys, sent: int): Sys {
    var n := Min(sent, |s.client.out|);
    if s.client.out != "" && n < 0 then CloseSys(s)
    else
      var (c, u) := WriteOut(s.client, s.users, n);
      s.(client := c, users := u, sent := s.sent + if n <= 0 then "" else s.client.out[..n])
  }

  function ReapSys(s: Sys): Sys {
    if s.client.open && s.client.mode == READING && s.client.phase == UPDATE then CloseSys(s) else s
  }

  function ReadSys(s: Sys, r: Received): Sys
    requires r.Data? ==> RecvBuffer(r.mem)
  {
    match r
    case RecvError => s
    case Eof => CloseSys(s)
    case Data(mem) =>
      match ReadIn(s.client, s.users, r)
      case None => s.(overrun := true)
      case Some((c, u)) => s.(client := c, heard := s.heard + [mem])
  }

  ghost predicate EventOk(e: Event) {
    (e.Environment? ==> StoreOk(e.store)) && (e.Readable? && e.received.Data? ==> RecvBuffer(e.received.mem))
  }

  /** One event.  select only offers a connection for reading in READING mode
      and for writing in WRITING mode. */
  function Apply(s: Sys, e: Event): Sys
    requires SysOk(s) && EventOk(e)
  {
    if s.overrun then s
    else
      match e
      case Environment(u, store) => s.(users := u, store := store)
      case Readable(r) => if s.client.open && s.client.mode == READING then ReadSys(s, r) else s
      case Writable(junk, sent) =>
        if s.client.open && s.client.mode == WRITING then ReapSys(SendSys(Execute(s, junk), sent)) else s
  }

  lemma {:induction false} CloseKeeps(s: Sys)
    requires SysOk(s) && s.client.open
    ensures SysOk(CloseSys(s)) && !CloseSys(s).client.open
  {
    assert s.sent + "" + (s.lost + s.client.out) == s.sent + s.client.out + s.lost by {
      assert s.lost == "";
    }
  }

  lemma {:induction false} SendFlow(sent: string, out: string, n: int, all: string)
    requires 0 <= n <= |out| && sent + out + "" == all
    ensures (sent + out[..n]) + out[n..] + "" == all
    ensures n == 0 ==> sent + "" + out[n..] + "" == all && out[n..] == out
  {
    assert out == out[..n] + out[n..];
  }

  /** A client that differs in output and mode only. */
  lemma {:induction false} SentKeeps(s: Sys, t: Sys)
    requires SysOk(s) && s.client.open && ClientOk(t.client)
    requires t == s.(client := s.client.(out := t.client.out, mode := t.client.mode), sent := t.sent)
    requires t.sent + t.client.out + "" == s.sent + s.client.out + ""
    ensures SysOk(t)
  {
    QueueSame(s, t);
  }

  lemma {:induction false} SendKeeps(s: Sys, sent: int)
    requires SysOk(s) && s.client.open && s.client.mode == WRITING
    ensures SysOk(SendSys(s, sent))
  {
    var n := Min(sent, |s.client.out|);
    if s.client.out != "" && n < 0 {
      CloseKeeps(s);
    } else {
      SentIs(s, sent, n, SendSys(s, sent));
      SentKeeps(s, SendSys(s, sent));
    }
  }

  lemma {:induction false} SentIs(s: Sys, sent: int, n: int, t: Sys)
    requires SysOk(s) && s.client.open && s.client.mode == WRITING
    requires n == Min(sent, |s.client.out|) && (s.client.out == "" || n >= 0) && t == SendSys(s, sent)
    ensures ClientOk(t.client)
    ensures t == s.(client := s.client.(out := t.client.out, mode := t.client.mode), sent := t.sent)
    ensures t.sent + t.client.out + "" == s.sent + s.client.out + ""
  {
    SendFlow(s.sent, s.client.out, if n < 0 then 0 else n, s.sent + s.client.out + "");
    assert s.sent + "" == s.sent;
  }

  lemma {:induction false} EndsBehind(front: seq<Cmd>, p: ParseState, s: string)
    requires p.list != [] || NeedsNode(front)
    ensures EndsDiscarding(ParseState(front + p.list, p.lenient), s) == EndsDiscarding(p, s)
    decreases |s|
  {
    var q := ParseState(front + p.list, p.lenient);
    if p.list != [] { assert q.list[|q.list| - 1] == p.list[|p.list| - 1]; }
    if |s| > 1 {
      FeedBehind(front, p, [s[0]]);
      FeedOne(p, s[0]);
      FeedOne(q, s[0]);
      EndsBehind(front, Feed(p, s[0]), s[1..]);
    }
  }

  function Behind(front: seq<Cmd>, list: Option<seq<Cmd>>): Option<seq<Cmd>> {
    match list case None => None case Some(l) => Some(front + l)
  }

  lemma {:induction false} AddDataBehind(front: seq<Cmd>, list: seq<Cmd>, mem: string, at: nat)
    requires |mem| == RECVSIZE && at <= RECVSIZE && (list != [] || NeedsNode(front))
    ensures AddDataFrom(front + list, mem, at) == Behind(front, AddDataFrom(list, mem, at))
    decreases RECVSIZE - at
  {
    if at < RECVSIZE && mem[at] != NUL {
      var n := TextEnd(mem, at);
      var s := mem[at..n];
      FeedBehind(front, ParseState(list, false), s);
      var after := Chunk(list, s);
      assert Chunk(front + list, s) == front + after;
      FeedGrows(ParseState(list, false), s);
      LastBehind(front, after);
      EndsBehind(front, ParseState(list, false), s);
      if n < RECVSIZE && EndsInvalid(after) {
        AddDataBehind(front, after, mem, n + 1);
      }
    }
  }

  lemma {:induction false} LastBehind(front: seq<Cmd>, list: seq<Cmd>)
    requires list != []
    ensures EndsInvalid(front + list) == EndsInvalid(list)
  {}

  lemma {:induction false} FeedGrows(p: ParseState, s: string)
    requires s != ""
    ensures FeedMany(p, s).list != []
    decreases |s|
  {
    if s[1..] != "" { FeedGrows(Feed(p, s[0]), s[1..]); }
  }

  lemma {:induction false} AddDataOk(list: seq<Cmd>, mem: string, at: nat)
    requires |mem| == RECVSIZE && at <= RECVSIZE && ListOk(list)
    ensures AddDataFrom(list, mem, at).Some? ==> ListOk(AddDataFrom(list, mem, at).value)
    decreases RECVSIZE - at
  {
    if at < RECVSIZE && mem[at] != NUL {
      var n := TextEnd(mem, at);
      FeedManyKeeps(ParseState(list, false), mem[at..n]);
      if n < RECVSIZE { AddDataOk(Chunk(list, mem[at..n]), mem, n + 1); }
    }
  }

  lemma {:induction false} ReadKeeps(s: Sys, r: Received)
    requires SysOk(s) && s.client.open && s.client.mode == READING && (r.Data? ==> RecvBuffer(r.mem))
    ensures SysOk(ReadSys(s, r))
  {
    match r
    case RecvError =>
    case Eof => CloseKeeps(s);
    case Data(mem) =>
      AddDataOk(s.client.list, mem, 0);
      match AddDataTo(s.client.list, mem)
      case None => OverrunKeeps(s);
      case Some(list) => HeardKeeps(s, mem, list);
  }

  lemma {:induction false} OverrunKeeps(s: Sys)
    requires SysOk(s) && s.client.open
    ensures SysOk(s.(overrun := true))
  {
    QueueSame(s, s.(overrun := true));
  }

  lemma {:induction false} HeardKeeps(s: Sys, mem: string, list: seq<Cmd>)
    requires SysOk(s) && s.client.open && s.client.mode == READING
    requires RecvBuffer(mem) && AddDataTo(s.client.list, mem) == Some(list) && ListOk(list)
    ensures SysOk(s.(client := s.client.(list := list, mode := WRITING), heard := s.heard + [mem]))
  {
    HeardQueue(s, mem, list, s.(client := s.client.(list := list, mode := WRITING), heard := s.heard + [mem]));
  }

  lemma {:induction false} HeardQueue(s: Sys, mem: string, list: seq<Cmd>, t: Sys)
    requires QueueOk(s) && RecvBuffer(mem) && AddDataTo(s.client.list, mem) == Some(list)
    requires t == s.(client := s.client.(list := list, mode := WRITING), heard := s.heard + [mem])
    ensures QueueOk(t)
  {
    assert t.heard[..|s.heard|] == s.heard;
    TakenFront(s);
    AddDataBehind(s.taken, s.client.list, mem, 0);
  }

  lemma {:induction false} TakenFront(s: Sys)
    requires QueueOk(s)
    ensures s.client.list != [] || NeedsNode(s.taken)
  {
    if s.taken != [] { assert Done(s.taken[|s.taken| - 1]); }
  }

  lemma {:induction false} WritableKeeps(s: Sys, junk: MailInfo, sent: int)
    requires SysOk(s) && s.client.open && s.client.mode == WRITING
    ensures SysOk(ReapSys(SendSys(Execute(s, junk), sent)))
  {
    ExecuteKeeps(s, junk);
    SendKeeps(Execute(s, junk), sent);
    var v := SendSys(Execute(s, junk), sent);
    if v.client.open { CloseKeeps(v); }
  }

  lemma {:induction false} EnvironmentKeeps(s: Sys, u: UserTable, store: Store)
    requires SysOk(s) && StoreOk(store)
    ensures SysOk(s.(users := u, store := store))
  {
    if s.client.open { QueueSame(s, s.(users := u, store := store)); }
  }

  /** Every event keeps the invariant. */
  lemma {:induction false} ApplyKeeps(s: Sys, e: Event)
    requires SysOk(s) && EventOk(e)
    ensures SysOk(Apply(s, e))
  {
    if !s.overrun {
      match e
      case Environment(u, store) => EnvironmentKeeps(s, u, store);
      case Readable(r) =>
        if s.client.open && s.client.mode == READING { ReadKeeps(s, r); }
      case Writable(junk, sent) =>
        if s.client.open && s.client.mode == WRITING { WritableKeeps(s, junk, sent); }
    }
  }

  ghost predicate EventsOk(es: seq<Event>) { forall i :: 0 <= i < |es| ==> EventOk(es[i]) }

  /** A run from `s`. */
  function Run(s: Sys, es: seq<Event>): Sys
    requires SysOk(s) && EventsOk(es)
    decreases |es|
  {
    if es == [] then s
    else
      ApplyKeeps(s, es[0]);
      Run(Apply(s, es[0]), es[1..])
  }

  lemma {:induction false} RunKeeps(s: Sys, es: seq<Event>)
    requires SysOk(s) && EventsOk(es)
    ensures SysOk(Run(s, es))
    decreases |es|
  {
    if es != [] {
      ApplyKeeps(s, es[0]);
      RunKeeps(Apply(s, es[0]), es[1..]);
    }
  }

  // ------------------------------------------------------ when a slot closes

  /** The client after sending `sent` of what it had to say. */
  predicate AllSaid(c: Client, sent: int) {
    (c.out == "" || sent >= |c.out|) && !Available(c.list) && c.running == None
  }

  /** The events that close an open slot: the end of the input, a failing send,
      and the send that completes what is to be said after a QUIT. */
  ghost predicate Closing(s: Sys, e: Event)
    requires SysOk(s) && s.client.open
  {
    match e
    case Environment(_, _) => false
    case Readable(r) => s.client.mode == READING && r.Eof?
    case Writable(junk, sent) =>
      s.client.mode == WRITING &&
      var c := Execute(s, junk).client;
      (c.out != "" && sent < 0) || (c.phase == UPDATE && AllSaid(c, sent))
  }

  lemma {:induction false} SendCloses(s: Sys, sent: int)
    requires s.client.open && s.client.mode == WRITING
    ensures var c, t := s.client, ReapSys(SendSys(s, sent));
            !t.client.open <==> (c.out != "" && sent < 0) || (c.phase == UPDATE && AllSaid(c, sent))
    ensures var t := ReapSys(SendSys(s, sent));
            !t.client.open ==> t.client == CLOSED && !IsConnected(t.users, s.client.username)
    ensures var t := ReapSys(SendSys(s, sent)); t.client.mode == READING && t.client.open ==> t.client.phase != UPDATE
    ensures var t := ReapSys(SendSys(s, sent)); t.client.open ==> t.client.phase == s.client.phase
  {}

  /** A slot closes exactly by such an event; it is wiped then, and the flag of
      the name it had typed is down. */
  lemma {:induction false} ClosesExactly(s: Sys, e: Event)
    requires SysOk(s) && EventOk(e) && !s.overrun && s.client.open
    ensures !Apply(s, e).client.open <==> Closing(s, e)
    ensures Closing(s, e) ==> Apply(s, e).client == CLOSED
    ensures Closing(s, e) && e.Readable? ==> !IsConnected(Apply(s, e).users, s.client.username)
    ensures Closing(s, e) && e.Writable? ==> !IsConnected(Apply(s, e).users, Execute(s, e.junk).client.username)
  {
    if e.Writable? && s.client.mode == WRITING {
      ExecuteKeeps(s, e.junk);
      SendCloses(Execute(s, e.junk), e.sent);
    }
  }

  /** No open connection waits for input once its QUIT was carried out. */
  ghost predicate NoneLeftOpen(s: Sys) { s.client.open && s.client.mode == READING ==> s.client.phase != UPDATE }

  lemma {:induction false} ApplyLeavesNone(s: Sys, e: Event)
    requires SysOk(s) && EventOk(e) && NoneLeftOpen(s)
    ensures NoneLeftOpen(Apply(s, e))
  {
    if !s.overrun && e.Writable? && s.client.open && s.client.mode == WRITING {
      ExecuteKeeps(s, e.junk);
      SendCloses(Execute(s, e.junk), e.sent);
    }
  }

  lemma {:induction false} RunLeavesNone(s: Sys, es: seq<Event>)
    requires SysOk(s) && EventsOk(es) && NoneLeftOpen(s)
    ensures NoneLeftOpen(Run(s, es))
    decreases |es|
  {
    if es != [] {
      ApplyKeeps(s, es[0]);
      ApplyLeavesNone(s, es[0]);
      RunLeavesNone(Apply(s, es[0]), es[1..]);
    }
  }
}
