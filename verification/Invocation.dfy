// One call of a command handler compared with the sequential reference: the
// same session, users and unlinked files at once, and the same reply when the
// last call of the command is over.

module Invocation {
  import opened Standards
  import opened Maildrop
  import opened Commands
  import opened CommandSyntax
  import opened Users
  import opened Session
  import opened ClientModel
  import opened Yielding

  /** A command taken off the queue: the session and environment it met, what
      was queued for it so far, whether it is over, and whether its calls left
      room for the end marker of a RETR. */
  datatype Exchange = Exchange(before: Session, request: Request, reply: string, over: bool, whole: bool)

  function Expected(e: Exchange): Outcome
    requires SessionOk(e.before)
  {
    Respond(e.before, e.request)
  }

  /** The commands that can go wrong, and when they do not: RETR of a mail of
      bytes 1..127 whose last call was not tight; LIST of a maildrop that is
      empty or ends in an unmarked mail. */
  predicate Good(e: Exchange)
    requires SessionOk(e.before)
  {
    if e.before.phase != TRANSACTION then true
    else
      var mails, arg := e.before.box.value, e.request.cmd.arg1;
      if e.request.cmd.callback == Some(RETR) then
        ValidMailNo(mails, Atoi(arg)) ==> Clean(mails[Atoi(arg) - 1].content) && e.whole
      else e.request.cmd.callback == Some(LIST) && arg == "" ==> LastUnmarked(mails)
  }

  /** The reply is the expected one exactly if nothing went wrong. */
  ghost predicate Right(e: Exchange) {
    SessionOk(e.before) && (e.reply == Expected(e).reply <==> Good(e))
  }

  /** The client is in the middle of the command of `e`. */
  ghost predicate InProgress(c: Client, e: Exchange) {
    ClientOk(c) && c.running == Some(e.request.cmd) && SessionOk(e.before) && SessionOf(c) == e.before &&
    c.phase == TRANSACTION && !e.over && e.whole &&
    var k := c.cache.value;
    match e.request.cmd.callback
    case Some(LIST) => ListSaid(k, e.reply)
    case Some(RETR) =>
      ValidMailNo(k.mails, Atoi(e.request.cmd.arg1)) && Clean(e.reply) &&
      var content := k.mails[Atoi(e.request.cmd.arg1) - 1].content;
      k.retr.current.value.content == content && (Clean(content) ==> RetrSaid(k, e.reply, content))
    case _ => false
  }

  /** The call about to be made finishes a RETR without room for its end marker. */
  predicate TightCall(c: Client, cmd: ToExecute)
    requires c.cache.Some? ==> CacheOk(c.cache.value)
    requires c.running.Some? && cmd.callback == Some(RETR) ==> c.cache.Some? && c.cache.value.retr.current.Some?
  {
    cmd.callback == Some(RETR) && c.cache.Some? &&
    var k := c.cache.value;
    if c.running.Some? then Tight(k, Free(c))
    else ValidMailNo(k.mails, Atoi(cmd.arg1)) && Tight(OpenMail(k, Atoi(cmd.arg1)).0, RetrLeft(Free(c)))
  }

  /** What one handler call must establish, `e` being the entry with its text. */
  ghost predicate CallOk(c: Client, u: UserTable, i: Invoked, cmd: ToExecute, e: Exchange) {
    |i.text| <= Free(c) &&
    i.client == c.(phase := i.client.phase, username := i.client.username, cache := i.client.cache) &&
    (i.client.cache.Some? ==> CacheOk(i.client.cache.value)) &&
    SessionOk(e.before) && SessionOk(SessionOf(i.client)) &&
    SessionOf(i.client) == Expected(e).session &&
    (i.status == NOT_FINISHED ==>
       Expected(e).session == e.before &&
       InProgress(i.client.(out := c.out + i.text, mode := WRITING, running := Some(cmd)), e)) &&
    (i.status != NOT_FINISHED ==> Right(e))
  }

  ghost predicate Ready(c: Client, cmd: ToExecute, store: Store) {
    ClientOk(c) && c.open && c.running == None && Free(c) > MAX_SINGLE_LINE_RESPONSE &&
    cmd.callback.Some? && Allowed(cmd.callback.value, c.phase) && StoreOk(store)
  }

  function FirstExchange(c: Client, u: UserTable, store: Store, cmd: ToExecute, i: Invoked): Exchange
    requires c.cache.Some? ==> CacheOk(c.cache.value)
    requires c.running == None
  {
    Exchange(SessionOf(c), Request(cmd, u, store), i.text, i.status != NOT_FINISHED, !TightCall(c, cmd))
  }

  // --------------------------------------------------------- simple commands

  lemma {:induction false} StatFits(count: int, size: int)
    ensures |StatText(count, size)| <= MAX_SINGLE_LINE_RESPONSE
  {}

  lemma {:induction false} FreshBoxOk(mails: seq<Mail>)
    requires FreshBox(mails)
    ensures CacheOk(Cache(mails, 0, 0, RetrState(None, ByteStuff.FRESH)))
  {
    NoneMarked(mails);
  }

  /** A first call that has the effect of the reference and finishes with its
      reply, or at least has something to say when it comes to that. */
  ghost predicate FirstOk(c: Client, u: UserTable, store: Store, cmd: ToExecute, i: Invoked)
    requires Ready(c, cmd, store)
  {
    var e := FirstExchange(c, u, store, cmd, i);
    CallOk(c, u, i, cmd, e) && i.users == Expected(e).users && i.unlinked == Expected(e).unlinked
  }

  /** USER, CAPA, NOOP and QUIT. */
  lemma {:induction false} LineCall(c: Client, u: UserTable, store: Store, cmd: ToExecute)
    requires Ready(c, cmd, store) && cmd.callback.value in {USER, CAPA, NOOP, QUIT}
    ensures FirstOk(c, u, store, cmd, InvokeLine(c, u, cmd))
  {}

  lemma {:induction false} PassCall(c: Client, u: UserTable, store: Store, cmd: ToExecute)
    requires Ready(c, cmd, store) && cmd.callback.value == PASS
    ensures FirstOk(c, u, store, cmd, InvokePass(c, u, store, cmd.arg1))
  {
    if Admit(u, c.username, cmd.arg1) == Welcome {
      PassWelcome(c, u, store, cmd);
    } else {
      PassRefused(c, u, store, cmd);
    }
  }

  lemma {:induction false} PassWelcome(c: Client, u: UserTable, store: Store, cmd: ToExecute)
    requires Ready(c, cmd, store) && cmd.callback.value == PASS
    requires Admit(u, c.username, cmd.arg1) == Welcome
    ensures FirstOk(c, u, store, cmd, SayOrRetry(LoggedInto(c, store), Toggle(u, c.username, true), WELCOME))
  {
    FreshBoxOk(BoxOf(store, c.username));
  }

  lemma {:induction false} PassRefused(c: Client, u: UserTable, store: Store, cmd: ToExecute)
    requires Ready(c, cmd, store) && cmd.callback.value == PASS
    requires Admit(u, c.username, cmd.arg1) != Welcome
    ensures FirstOk(c, u, store, cmd, InvokePass(c, u, store, cmd.arg1))
  {}

  lemma {:induction false} StatCall(c: Client, u: UserTable, store: Store, cmd: ToExecute)
    requires Ready(c, cmd, store) && cmd.callback.value == STAT
    ensures FirstOk(c, u, store, cmd, InvokeStat(c, u))
  {
    var k := c.cache.value;
    AccountingAgrees(k);
    DrainIsListing(k.mails, 0);
    StatFits(GetAmountOfMails(k), SizeOfMails(k.mails));
  }

  lemma {:induction false} DeleCall(c: Client, u: UserTable, store: Store, cmd: ToExecute)
    requires Ready(c, cmd, store) && cmd.callback.value == DELE
    ensures FirstOk(c, u, store, cmd, InvokeDele(c, u, Atoi(cmd.arg1)))
  {
    var k, n := c.cache.value, Atoi(cmd.arg1);
    if ValidMailNo(k.mails, n) { CountAfterMark(k.mails, n); }
  }

  lemma {:induction false} RsetCall(c: Client, u: UserTable, store: Store, cmd: ToExecute)
    requires Ready(c, cmd, store) && cmd.callback.value == RSET
    ensures FirstOk(c, u, store, cmd, InvokeRset(c, u))
  {
    CountAfterReset(c.cache.value.mails);
  }

  lemma {:induction false} EntryCall(c: Client, u: UserTable, store: Store, cmd: ToExecute, junk: MailInfo)
    requires Ready(c, cmd, store) && cmd.callback.value == LIST && cmd.arg1 != ""
    ensures FirstOk(c, u, store, cmd, InvokeList(c, u, cmd.arg1, junk))
  {
    var k, n := c.cache.value, Atoi(cmd.arg1);
    if ValidMailNo(k.mails, n) { LineLengths(InfoOf(k.mails, n - 1), 0); }
  }

  // ---------------------------------------------------------- LIST and RETR

  lemma {:induction false} ListFirstCall(c: Client, u: UserTable, store: Store, cmd: ToExecute, junk: MailInfo)
    requires Ready(c, cmd, store) && cmd.callback.value == LIST && cmd.arg1 == ""
    ensures FirstOk(c, u, store, cmd, InvokeList(c, u, "", junk))
  {
    var k := c.cache.value;
    ListCallFits(k, Free(c), true, junk);
    ListCall(k, Free(c), true, junk, "");
    var text := ListAll(k, Free(c), true, junk).1;
    assert "" + text == text;
  }

  /** A call of a RETR in state `k` after `said`. */
  ghost predicate RetrCallOk(k: Cache, said: string, content: string, k1: Cache, text: string,
                             status: ExecutionStatus, tight: bool) {
    CacheOk(k1) && k1 == k.(retr := k1.retr) && Clean(said + text) &&
    (status == FINISHED || status == NOT_FINISHED) &&
    (status == NOT_FINISHED ==>
       k1.retr.current.Some? && k1.retr.current.value.content == content &&
       (Clean(content) ==> RetrSaid(k1, said + text, content))) &&
    (status == FINISHED ==> (said + text == RetrReply(content) <==> Clean(content) && !tight))
  }

  lemma {:induction false} RetrAnyCall(k: Cache, room: int, said: string, content: string)
    requires CacheOk(k) && room <= BUFFERSIZE && Clean(said)
    requires k.retr.current.Some? && k.retr.current.value.content == content
    requires Clean(content) ==> RetrSaid(k, said, content)
    ensures var (k1, text, status) := ContinueRetr(k, room);
            RetrCallOk(k, said, content, k1, text, status, Tight(k, room)) && (0 <= room ==> |text| <= room)
  {
    RetrCallFits(k, room);
    var (k1, text, status) := ContinueRetr(k, room);
    CleanJoin(said, text);
    if Clean(content) {
      RetrCall(k, room, said, content);
    } else {
      DirtyMailLost(content, said + text);
    }
  }

  lemma {:induction false} RetrOpening(k: Cache, room: int, n: int)
    requires CacheOk(k) && ValidMailNo(k.mails, n) && MAX_SINGLE_LINE_RESPONSE < room <= BUFFERSIZE
    ensures var (k1, text, status) := RetrAll(k, room, true, n);
            RetrCallOk(k, "", k.mails[n - 1].content, k1, text, status, Tight(OpenMail(k, n).0, RetrLeft(room))) &&
            |text| <= room
  {
    RetrStarts(k, n);
    RetrOpened(k, room, n, OpenMail(k, n).0, RetrLeft(room));
  }

  lemma {:induction false} RetrOpened(k: Cache, room: int, n: int, k0: Cache, left: int)
    requires CacheOk(k) && ValidMailNo(k.mails, n) && MAX_SINGLE_LINE_RESPONSE < room <= BUFFERSIZE
    requires OpenMail(k, n) == (k0, true) && left == RetrLeft(room) && CacheOk(k0) && k0 == k.(retr := k0.retr)
    requires k0.retr.current.Some? && k0.retr.current.value.content == k.mails[n - 1].content
    requires Clean(k.mails[n - 1].content) ==> RetrSaid(k0, RETRFOLLOWS, k.mails[n - 1].content)
    ensures var (k1, text, status) := RetrAll(k, room, true, n);
            RetrCallOk(k, "", k.mails[n - 1].content, k1, text, status, Tight(k0, left)) && |text| <= room
  {
    RetrUnfolds(k, room, n, k0, left);
    RetrAnyCall(k0, left, RETRFOLLOWS, k.mails[n - 1].content);
    var (k1, body, status) := ContinueRetr(k0, left);
    RetrHead(k, k0, k.mails[n - 1].content, k1, body, status, Tight(k0, left));
  }

  lemma {:induction false} RetrHead(k: Cache, k0: Cache, content: string, k1: Cache, body: string,
                                    status: ExecutionStatus, tight: bool)
    requires RetrCallOk(k0, RETRFOLLOWS, content, k1, body, status, tight) && k0 == k.(retr := k0.retr)
    ensures RetrCallOk(k, "", content, k1, RETRFOLLOWS + body, status, tight)
  {
    assert "" + (RETRFOLLOWS + body) == RETRFOLLOWS + body;
  }

  lemma {:induction false} RetrMissing(c: Client, u: UserTable, store: Store, cmd: ToExecute)
    requires Ready(c, cmd, store) && cmd.callback.value == RETR && !ValidMailNo(c.cache.value.mails, Atoi(cmd.arg1))
    ensures FirstOk(c, u, store, cmd, InvokeRetr(c, u, cmd.arg1))
  {}

  lemma {:induction false} RetrFound(c: Client, u: UserTable, store: Store, cmd: ToExecute, i: Invoked, e: Exchange,
                                     k1: Cache, content: string)
    requires Ready(c, cmd, store) && cmd.callback.value == RETR && ValidMailNo(c.cache.value.mails, Atoi(cmd.arg1))
    requires content == c.cache.value.mails[Atoi(cmd.arg1) - 1].content
    requires i == Invoked(c.(cache := Some(k1)), u, i.text, i.status, []) && |i.text| <= Free(c)
    requires RetrCallOk(c.cache.value, "", content, k1, i.text, i.status, !e.whole)
    requires e == Exchange(SessionOf(c), Request(cmd, u, store), i.text, i.status != NOT_FINISHED, e.whole)
    requires i.status == NOT_FINISHED ==> e.whole
    ensures CallOk(c, u, i, cmd, e) && Expected(e).users == u && Expected(e).unlinked == []
  {
    assert "" + i.text == i.text;
    assert Expected(e) == Outcome(e.before, u, RetrReply(content), []);
  }

  lemma {:induction false} RetrFirstCall(c: Client, u: UserTable, store: Store, cmd: ToExecute)
    requires Ready(c, cmd, store) && cmd.callback.value == RETR
    ensures FirstOk(c, u, store, cmd, InvokeRetr(c, u, cmd.arg1))
  {
    if ValidMailNo(c.cache.value.mails, Atoi(cmd.arg1)) {
      RetrPresent(c, u, store, cmd);
    } else {
      RetrMissing(c, u, store, cmd);
    }
  }

  lemma {:induction false} RetrPresent(c: Client, u: UserTable, store: Store, cmd: ToExecute)
    requires Ready(c, cmd, store) && cmd.callback.value == RETR && ValidMailNo(c.cache.value.mails, Atoi(cmd.arg1))
    ensures FirstOk(c, u, store, cmd, InvokeRetr(c, u, cmd.arg1))
  {
    var k, n := c.cache.value, Atoi(cmd.arg1);
    var i := InvokeRetr(c, u, cmd.arg1);
    var e := FirstExchange(c, u, store, cmd, i);
    var (k1, text, status) := RetrAll(k, Free(c), true, n);
    RetrOpening(k, Free(c), n);
    RetrTight(c, cmd, store);
    RetrFound(c, u, store, cmd, i, e, k1, k.mails[n - 1].content);
  }

  lemma {:induction false} RetrTight(c: Client, cmd: ToExecute, store: Store)
    requires Ready(c, cmd, store) && cmd.callback.value == RETR && ValidMailNo(c.cache.value.mails, Atoi(cmd.arg1))
    ensures TightCall(c, cmd) <==> Tight(OpenMail(c.cache.value, Atoi(cmd.arg1)).0, RetrLeft(Free(c)))
    ensures RetrAll(c.cache.value, Free(c), true, Atoi(cmd.arg1)).2 == NOT_FINISHED ==> !TightCall(c, cmd)
  {
    var k, n := c.cache.value, Atoi(cmd.arg1);
    RetrStarts(k, n);
    RetrUnfolds(k, Free(c), n, OpenMail(k, n).0, RetrLeft(Free(c)));
  }

  // ------------------------------------------------------------- all of it

  /** The first call of any command. */
  lemma {:induction false} FirstCall(c: Client, u: UserTable, store: Store, cmd: ToExecute, junk: MailInfo)
    requires Ready(c, cmd, store)
    ensures FirstOk(c, u, store, cmd, Invoke(c, u, store, cmd, junk))
  {
    match cmd.callback.value
    case PASS => PassCall(c, u, store, cmd);
    case USER | CAPA | NOOP | QUIT => LineCall(c, u, store, cmd);
    case STAT => StatCall(c, u, store, cmd);
    case DELE => DeleCall(c, u, store, cmd);
    case RSET => RsetCall(c, u, store, cmd);
    case LIST =>
      if cmd.arg1 == "" {
        ListFirstCall(c, u, store, cmd, junk);
      } else {
        EntryCall(c, u, store, cmd, junk);
      }
    case RETR => RetrFirstCall(c, u, store, cmd);
  }

  /** The exchange after a resumed call. */
  function NextExchange(c: Client, e: Exchange, i: Invoked): Exchange
    requires c.cache.Some? ==> CacheOk(c.cache.value)
    requires c.running.Some? && e.request.cmd.callback == Some(RETR) ==>
               c.cache.Some? && c.cache.value.retr.current.Some?
  {
    e.(reply := e.reply + i.text, over := i.status != NOT_FINISHED, whole := e.whole && !TightCall(c, e.request.cmd))
  }

  /** A later call: nothing but the reply and the maildrop's own state moves. */
  ghost predicate LaterOk(c: Client, u: UserTable, e: Exchange, i: Invoked)
    requires InProgress(c, e)
  {
    CallOk(c, u, i, e.request.cmd, NextExchange(c, e, i)) && i.users == u && i.unlinked == [] &&
      Expected(e).session == e.before
  }

  /** A resumed call: LIST or RETR. */
  lemma {:induction false} ResumedCall(c: Client, u: UserTable, store: Store, e: Exchange, junk: MailInfo)
    requires InProgress(c, e) && Free(c) > MAX_SINGLE_LINE_RESPONSE
    ensures LaterOk(c, u, e, Invoke(c, u, store, e.request.cmd, junk))
  {
    if e.request.cmd.callback == Some(LIST) {
      ResumedList(c, u, e, junk);
    } else {
      ResumedRetr(c, u, e);
    }
  }

  lemma {:induction false} ResumedList(c: Client, u: UserTable, e: Exchange, junk: MailInfo)
    requires InProgress(c, e) && Free(c) > MAX_SINGLE_LINE_RESPONSE && e.request.cmd.callback == Some(LIST)
    ensures LaterOk(c, u, e, InvokeList(c, u, "", junk))
  {
    var k := c.cache.value;
    ListCallFits(k, Free(c), false, junk);
    ListCall(k, Free(c), false, junk, e.reply);
  }

  lemma {:induction false} ResumedRetr(c: Client, u: UserTable, e: Exchange)
    requires InProgress(c, e) && Free(c) > MAX_SINGLE_LINE_RESPONSE && e.request.cmd.callback == Some(RETR)
    ensures LaterOk(c, u, e, InvokeRetr(c, u, e.request.cmd.arg1))
  {
    var k, content := c.cache.value, c.cache.value.mails[Atoi(e.request.cmd.arg1) - 1].content;
    var (k1, text, status) := ContinueRetr(k, Free(c));
    RetrAnyCall(k, Free(c), e.reply, content);
    LaterRetr(c, u, e, InvokeRetr(c, u, e.request.cmd.arg1), k1, content);
  }

  lemma {:induction false} LaterRetr(c: Client, u: UserTable, e: Exchange, i: Invoked, k1: Cache, content: string)
    requires InProgress(c, e) && Free(c) > MAX_SINGLE_LINE_RESPONSE && e.request.cmd.callback == Some(RETR)
    requires content == c.cache.value.mails[Atoi(e.request.cmd.arg1) - 1].content
    requires i == Invoked(c.(cache := Some(k1)), u, i.text, i.status, []) && |i.text| <= Free(c)
    requires RetrCallOk(c.cache.value, e.reply, content, k1, i.text, i.status, Tight(c.cache.value, Free(c)))
    requires i.status == NOT_FINISHED ==> !Tight(c.cache.value, Free(c))
    ensures LaterOk(c, u, e, i)
  {}
}
