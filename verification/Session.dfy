// The server as a client should see it: one command, one whole reply, no
// buffer, no yields.  This is what the event-driven code is compared with.

module Session {
  import opened Standards
  import opened Stuffing
  import opened Maildrop
  import opened Commands
  import opened CommandSyntax
  import opened Users

  /** Mail directories by user; a user without one has no mails. */
  type Store = map<string, seq<Mail>>

  /** A maildrop as a directory listing finds it. */
  predicate FreshBox(mails: seq<Mail>) {
    |mails| < 0x8000_0000 && forall i :: 0 <= i < |mails| ==> !mails[i].toDelete
  }

  ghost predicate StoreOk(store: Store) { forall name :: name in store ==> FreshBox(store[name]) }

  function BoxOf(store: Store, name: string): seq<Mail> {
    if name in store then store[name] else []
  }

  /** `box` is the maildrop with its marks, from login on. */
  datatype Session = Session(phase: PopState, username: string, box: Option<seq<Mail>>)

  const NEWSESSION := Session(AUTHENTICATION, "", None)

  ghost predicate SessionOk(s: Session) {
    s.phase != ANY && (s.phase == TRANSACTION ==> s.box.Some?) && (s.phase == AUTHENTICATION ==> s.box.None?) &&
    (s.box.Some? ==> |s.box.value| < 0x8000_0000)
  }

  datatype Request = Request(cmd: ToExecute, users: UserTable, store: Store)

  datatype Outcome = Outcome(session: Session, users: UserTable, reply: string, unlinked: seq<string>)

  // ------------------------------------------------------------ the texts

  const GREETING := "+OK Pop3 Server Ready\r\n"
  const INVALIDCOMMAND := "-ERR Invalid command\r\n"
  const INVALIDSTATE := "-ERR Invalid state\r\n"
  const USERRECEIVED := "+OK User received.\r\n"
  const ALREADYCONNECTED := "-ERR This user is already connected\r\n"
  const WELCOME := "+OK Welcome\r\n"
  const AUTHFAILED := "-ERR Authentication failed\r\n"
  const NOOPREPLY := "+OK\r\n"
  const MARKED := "+OK message marked to delete\r\n"
  const NOSUCHMAIL := "-ERR That email doesn't seem to exist\r\n"
  const NOSUCHMESSAGE := "-ERR That message doesn't seem to exist\r\n"
  const UNMARKED := "+OK messages no longer marked to delete\r\n"
  const EXITING := "+OK exiting\r\n"
  const CAPABILITIES := "+OK Capability list follows\r\nUSER\r\nPIPELINING\r\n.\r\n"
  const RETRFOLLOWS := "+OK message follows\r\n"
  const LISTEND := ".\r\n"

  function StatText(count: int, size: int): string {
    var text := "+OK " + Dec(count) + " " + Dec(size) + "\r\n";
    text[..Min(|text|, MAX_SINGLE_LINE_RESPONSE - 1)]
  }

  function ListHeader(count: int): string { "+OK There are " + Dec(count) + " messages available\r\n" }

  function ListLine(info: MailInfo): string { Dec(info.mailNo) + " " + Dec(info.size) + "\r\n" }

  function ListLines(l: seq<MailInfo>): string
    decreases |l|
  {
    if l == [] then "" else ListLine(l[0]) + ListLines(l[1..])
  }

  function ListReply(mails: seq<Mail>): string
    requires |mails| < 0x8000_0000
  {
    ListHeader(|Listing(mails, 0)|) + ListLines(Listing(mails, 0)) + LISTEND
  }

  function RetrReply(content: string): string { RETRFOLLOWS + Stuff(content) + TERMINATOR }

  function AdmissionText(a: Admission): string {
    match a case BadPassword => AUTHFAILED case Busy => ALREADYCONNECTED case Welcome => WELCOME
  }

  // ------------------------------------------------------------ one command

  predicate Allowed(v: Verb, phase: PopState) {
    StateNeeded(v) == ANY || phase == StateNeeded(v)
  }

  /** The maildrop commands, in the TRANSACTION phase. */
  function MailReply(mails: seq<Mail>, v: Verb, arg: string): (seq<Mail>, string)
    requires |mails| < 0x8000_0000 && StateNeeded(v) == TRANSACTION
  {
    match v
    case STAT => (mails, StatText(|Listing(mails, 0)|, SumSizes(Listing(mails, 0))))
    case LIST =>
      if arg == "" then (mails, ListReply(mails))
      else if ValidMailNo(mails, Atoi(arg)) then (mails, "+OK " + ListLine(InfoOf(mails, Atoi(arg) - 1)))
      else (mails, NOSUCHMESSAGE)
    case RETR =>
      if ValidMailNo(mails, Atoi(arg)) then (mails, RetrReply(mails[Atoi(arg) - 1].content))
      else (mails, NOSUCHMAIL)
    case DELE =>
      if ValidMailNo(mails, Atoi(arg)) then (Mark(mails, Atoi(arg)), MARKED) else (mails, NOSUCHMAIL)
    case RSET => (UnmarkAll(mails), UNMARKED)
    case _ => (mails, NOOPREPLY)
  }

  function Respond(s: Session, r: Request): Outcome
    requires SessionOk(s)
  {
    var u := r.users;
    match r.cmd.callback
    case None => Outcome(s, u, INVALIDCOMMAND, [])
    case Some(v) =>
      if !Allowed(v, s.phase) then Outcome(s, u, INVALIDSTATE, [])
      else match v
           case USER => Outcome(s.(username := r.cmd.arg1), u, USERRECEIVED, [])
           case PASS =>
             var a := Admit(u, s.username, r.cmd.arg1);
             if a != Welcome then Outcome(s, u, AdmissionText(a), [])
             else Outcome(Session(TRANSACTION, s.username, Some(BoxOf(r.store, s.username))),
                          Toggle(u, s.username, true), AdmissionText(a), [])
           case QUIT =>
             Outcome(s.(phase := UPDATE), u, EXITING, if s.phase == TRANSACTION then MarkedNames(s.box.value) else [])
           case CAPA => Outcome(s, u, CAPABILITIES, [])
           case _ =>
             var (mails, reply) := MailReply(s.box.value, v, r.cmd.arg1);
             Outcome(s.(box := Some(mails)), u, reply, [])
  }

  lemma {:induction false} RespondKeeps(s: Session, r: Request)
    requires SessionOk(s) && StoreOk(r.store)
    ensures SessionOk(Respond(s, r).session)
  {}

  // ------------------------------------------------- phases and deletions

  function Rank(p: PopState): nat {
    match p case ANY => 0 case AUTHENTICATION => 1 case TRANSACTION => 2 case UPDATE => 3
  }

  /** A session with what matters for deletions: the maildrop as it was at
      login, the marking commands carried out since, and what was unlinked. */
  datatype Trail = Trail(session: Session, atLogin: seq<Mail>, ops: seq<MarkOp>, unlinked: seq<string>)

  /** The marking commands that are carried out in a phase. */
  function OpsOf(s: Session, r: Request): seq<MarkOp> {
    if s.phase != TRANSACTION then []
    else if r.cmd.callback == Some(DELE) then [Dele(Atoi(r.cmd.arg1))]
    else if r.cmd.callback == Some(RSET) then [Rset]
    else []
  }

  function Follow(t: Trail, r: Request): Trail
    requires SessionOk(t.session)
  {
    var o := Respond(t.session, r);
    if t.session.phase == AUTHENTICATION && o.session.phase == TRANSACTION
    then Trail(o.session, BoxOf(r.store, o.session.username), [], t.unlinked + o.unlinked)
    else Trail(o.session, t.atLogin, t.ops + OpsOf(t.session, r), t.unlinked + o.unlinked)
  }

  /** The mails of `mails` asked to be deleted and not reset since. */
  ghost function Doomed(mails: seq<Mail>, ops: seq<MarkOp>): seq<Mail> {
    seq(|mails|, i requires 0 <= i < |mails| => mails[i].(toDelete := DeletedSinceReset(ops, i + 1)))
  }

  /** `names` are those of the mails asked to be deleted and not reset since, and
      of no others, in order, each once. */
  ghost predicate AreDeleted(names: seq<string>, mails: seq<Mail>, ops: seq<MarkOp>) {
    exists idx :: Selects(names, mails, idx) &&
      forall i :: 0 <= i < |mails| ==> (i in idx <==> DeletedSinceReset(ops, i + 1))
  }

  ghost predicate TrailOk(t: Trail) {
    SessionOk(t.session) && FreshBox(t.atLogin) &&
    (t.session.box.Some? ==> t.session.box.value == Doomed(t.atLogin, t.ops)) &&
    if t.session.phase == UPDATE && t.session.box.Some? then AreDeleted(t.unlinked, t.atLogin, t.ops)
    else t.unlinked == []
  }

  lemma {:induction false} DoomedAfter(mails: seq<Mail>, ops: seq<MarkOp>, op: MarkOp)
    requires FreshBox(mails)
    ensures Doomed(mails, ops + [op]) ==
            match op
            case Dele(n) =>
              if ValidMailNo(Doomed(mails, ops), n) then Mark(Doomed(mails, ops), n) else Doomed(mails, ops)
            case Rset => UnmarkAll(Doomed(mails, ops))
  {
    var d := Doomed(mails, ops);
    var e := match op
             case Dele(n) => if ValidMailNo(d, n) then Mark(d, n) else d
             case Rset => UnmarkAll(d);
    assert (ops + [op])[..|ops|] == ops;
    forall i | 0 <= i < |mails| ensures Doomed(mails, ops + [op])[i] == e[i] {
      LastOp(ops + [op], i + 1);
    }
  }

  lemma {:induction false} NothingDoomed(mails: seq<Mail>)
    requires FreshBox(mails)
    ensures Doomed(mails, []) == mails
  {
    forall i | 0 <= i < |mails| ensures Doomed(mails, [])[i] == mails[i] {}
  }

  /** One command: the phase never goes back; files are unlinked only by the
      step from TRANSACTION to UPDATE, and then exactly the mails deleted since
      the last reset. */
  lemma {:induction false} FollowKeeps(t: Trail, r: Request)
    requires TrailOk(t) && StoreOk(r.store)
    ensures TrailOk(Follow(t, r))
    ensures Rank(t.session.phase) <= Rank(Follow(t, r).session.phase)
    ensures Respond(t.session, r).unlinked != [] ==>
              t.session.phase == TRANSACTION && Follow(t, r).session.phase == UPDATE && r.cmd.callback == Some(QUIT)
  {
    RespondKeeps(t.session, r);
    FollowTrail(t, r);
  }

  lemma {:induction false} FollowTrail(t: Trail, r: Request)
    requires TrailOk(t) && StoreOk(r.store)
    ensures TrailOk(Follow(t, r))
  {
    var s := t.session;
    if s.phase == TRANSACTION && (r.cmd.callback == Some(DELE) || r.cmd.callback == Some(RSET)) {
      FollowMark(t, r);
    } else if s.phase == AUTHENTICATION && r.cmd.callback == Some(PASS) {
      FollowPass(t, r);
    } else if s.phase == TRANSACTION && r.cmd.callback == Some(QUIT) {
      FollowQuit(t, r);
    } else {
      RespondKeeps(s, r);
      assert t.ops + [] == t.ops && t.unlinked + [] == t.unlinked;
    }
  }

  lemma {:induction false} FollowMark(t: Trail, r: Request)
    requires TrailOk(t) && StoreOk(r.store) && t.session.phase == TRANSACTION
    requires r.cmd.callback == Some(DELE) || r.cmd.callback == Some(RSET)
    ensures TrailOk(Follow(t, r))
  {
    RespondKeeps(t.session, r);
    DoomedAfter(t.atLogin, t.ops, if r.cmd.callback == Some(DELE) then Dele(Atoi(r.cmd.arg1)) else Rset);
    assert t.unlinked + [] == t.unlinked;
  }

  lemma {:induction false} FollowQuit(t: Trail, r: Request)
    requires TrailOk(t) && StoreOk(r.store) && t.session.phase == TRANSACTION && r.cmd.callback == Some(QUIT)
    ensures TrailOk(Follow(t, r))
  {
    RespondKeeps(t.session, r);
    DoomedNames(t.atLogin, t.ops);
    assert t.ops + [] == t.ops && [] + MarkedNames(t.session.box.value) == MarkedNames(t.session.box.value);
  }

  lemma {:induction false} SelectsSame(names: seq<string>, d: seq<Mail>, mails: seq<Mail>, idx: seq<nat>)
    requires Selects(names, d, idx) && |d| == |mails|
    requires forall i :: 0 <= i < |d| ==> d[i].filename == mails[i].filename
    ensures Selects(names, mails, idx)
  {}

  lemma {:induction false} DoomedAt(mails: seq<Mail>, ops: seq<MarkOp>, idx: seq<nat>)
    requires idx == MarkedAt(Doomed(mails, ops))
    ensures forall i :: 0 <= i < |mails| ==> (i in idx <==> DeletedSinceReset(ops, i + 1))
  {
    MarkedPositions(Doomed(mails, ops));
    forall i | 0 <= i < |mails| ensures i in idx <==> DeletedSinceReset(ops, i + 1) {
      assert Doomed(mails, ops)[i].toDelete == DeletedSinceReset(ops, i + 1);
    }
  }

  lemma {:induction false} DoomedNames(mails: seq<Mail>, ops: seq<MarkOp>)
    ensures AreDeleted(MarkedNames(Doomed(mails, ops)), mails, ops)
  {
    var d := Doomed(mails, ops);
    MarkedSelects(d);
    SelectsSame(MarkedNames(d), d, mails, MarkedAt(d));
    DoomedAt(mails, ops, MarkedAt(d));
  }

  lemma {:induction false} FollowPass(t: Trail, r: Request)
    requires TrailOk(t) && StoreOk(r.store) && t.session.phase == AUTHENTICATION && r.cmd.callback == Some(PASS)
    ensures TrailOk(Follow(t, r))
  {
    RespondKeeps(t.session, r);
    NothingDoomed(BoxOf(r.store, t.session.username));
    assert t.ops + [] == t.ops && t.unlinked + [] == t.unlinked;
  }

  function FollowAll(t: Trail, rs: seq<Request>): Trail
    requires SessionOk(t.session) && forall i :: 0 <= i < |rs| ==> StoreOk(rs[i].store)
    decreases |rs|
  {
    if rs == [] then t
    else
      RespondKeeps(t.session, rs[0]);
      FollowAll(Follow(t, rs[0]), rs[1..])
  }

  const NEWTRAIL := Trail(NEWSESSION, [], [], [])

  /** Over every run of commands: nothing is unlinked before the UPDATE phase,
      and what is unlinked then, however many commands follow, is exactly the
      mails marked at that moment. */
  lemma {:induction false} DeletionOnlyByQuit(t: Trail, rs: seq<Request>)
    requires TrailOk(t) && forall i :: 0 <= i < |rs| ==> StoreOk(rs[i].store)
    ensures TrailOk(FollowAll(t, rs))
    ensures Rank(t.session.phase) <= Rank(FollowAll(t, rs).session.phase)
    decreases |rs|
  {
    if rs != [] {
      FollowKeeps(t, rs[0]);
      DeletionOnlyByQuit(Follow(t, rs[0]), rs[1..]);
    }
  }

  lemma {:induction false} NewTrailOk()
    ensures TrailOk(NEWTRAIL)
  {}
}
