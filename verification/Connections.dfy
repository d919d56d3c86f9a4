// The server as a whole: the slots of all connections over one user table, and
// the datagrams that change it.  Each event is a few moves of Login, so that at
// most one connection per user is logged in.

module Connections {
  import opened Standards
  import opened Commands
  import opened CommandSyntax
  import opened CommandParser
  import opened Maildrop
  import opened Users
  import opened Session
  import opened ClientModel
  import opened System
  import Login
  import Mp3p

  datatype Server = Server(slots: map<int, Sys>, users: UserTable, overrun: bool)

  /** `store` is what the mail directories hold at that moment. */
  datatype Happening =
    | Accept(id: int, store: Store)
    | Slot(id: int, store: Store, event: Event)
    | Datagram(text: string)

  ghost predicate ServerOk(v: Server) {
    forall id :: id in v.slots ==> SysOk(v.slots[id]) && (v.slots[id].overrun ==> v.overrun)
  }

  ghost predicate HappeningOk(h: Happening) {
    match h
    case Accept(_, store) => StoreOk(store)
    case Slot(_, store, e) => StoreOk(store) && EventOk(e) && !e.Environment?
    case Datagram(text) => Mp3p.Received(text)
  }

  /** A slot with the user table and the directories as they are now. */
  function Now(v: Server, id: int, store: Store): Sys
    requires id in v.slots
  {
    v.slots[id].(users := v.users, store := store)
  }

  lemma {:induction false} NowOk(v: Server, id: int, store: Store)
    requires ServerOk(v) && id in v.slots && StoreOk(store)
    ensures SysOk(Now(v, id, store))
  {
    EnvironmentKeeps(v.slots[id], v.users, store);
  }

  /** Nothing is said of the server once a scan or a copy has left its buffer. */
  function Step(v: Server, h: Happening): Server
    requires ServerOk(v) && HappeningOk(h)
  {
    if v.overrun then v
    else
      match h
      case Accept(id, store) =>
        if id in v.slots && v.slots[id].client.open then v else v.(slots := v.slots[id := Start(v.users, store)])
      case Slot(id, store, e) =>
        if id !in v.slots then v
        else
          NowOk(v, id, store);
          var t := Apply(Now(v, id, store), e);
          Server(v.slots[id := t], t.users, t.overrun)
      case Datagram(text) =>
        match Mp3p.Request(text, v.users)
        case None => v.(overrun := true)
        case Some((u, _)) => v.(users := u)
  }

  lemma {:induction false} StepKeeps(v: Server, h: Happening)
    requires ServerOk(v) && HappeningOk(h)
    ensures ServerOk(Step(v, h))
  {
    match h
    case Accept(id, store) => StartOk(v.users, store);
    case Slot(id, store, e) =>
      if id in v.slots {
        NowOk(v, id, store);
        ApplyKeeps(Now(v, id, store), e);
      }
    case Datagram(_) =>
  }

  // ------------------------------------------------------- as moves of Login

  /** The open connections and what they have logged in to. */
  function WorldOf(v: Server): Login.World {
    Login.World(v.users, map id | id in v.slots && v.slots[id].client.open :: SessionOf(v.slots[id].client))
  }

  /** A writable event takes a command off the queue. */
  predicate Dequeues(s: Sys, e: Event) {
    e.Writable? && s.client.open && s.client.mode == WRITING && Free(s.client) > MAX_SINGLE_LINE_RESPONSE &&
    s.client.running == None && Available(s.client.list)
  }

  /** What an event of a slot is for the logins: perhaps a command, perhaps a hangup. */
  function SlotMoves(id: int, s: Sys, e: Event): seq<Login.Move>
    requires SysOk(s) && EventOk(e)
  {
    MovesIf(id, s, e, s.client.open && !Apply(s, e).client.open)
  }

  function MovesIf(id: int, s: Sys, e: Event, hangs: bool): seq<Login.Move> {
    if Dequeues(s, e) then RunAndHang(id, Taken(s.client.list[0]), s.store, hangs)
    else if hangs then [Login.Hangup(id)]
    else []
  }

  function RunAndHang(id: int, cmd: ToExecute, store: Store, hangs: bool): seq<Login.Move> {
    if hangs then [Login.Command(id, cmd, store), Login.Hangup(id)] else [Login.Command(id, cmd, store)]
  }

  function DatagramMoves(u: UserTable, text: string): seq<Login.Move>
    requires Mp3p.Received(text)
  {
    match Mp3p.OutcomeOf(text)
    case Parsed(h, s) =>
      Mp3p.ArgumentsCopied(text);
      CarryMoves(u, h, s)
    case _ => []
  }

  function MovesOf(v: Server, h: Happening): seq<Login.Move>
    requires ServerOk(v) && HappeningOk(h)
  {
    if v.overrun then []
    else
      match h
      case Accept(id, store) => if id in v.slots && v.slots[id].client.open then [] else [Login.Connect(id)]
      case Slot(id, store, e) =>
        if id !in v.slots then [] else (NowOk(v, id, store); SlotMoves(id, Now(v, id, store), e))
      case Datagram(text) => DatagramMoves(v.users, text)
  }

  lemma {:induction false} WorldIsOk(v: Server)
    requires ServerOk(v)
    ensures Login.WorldOk(WorldOf(v))
  {}

  /** Sending and reaping leave the session and the table, or hang up. */
  lemma {:induction false} SendIs(s: Sys, sent: int)
    requires s.client.open
    ensures var t := ReapSys(SendSys(s, sent));
            if t.client.open then SessionOf(t.client) == SessionOf(s.client) && t.users == s.users
            else t.users == Toggle(s.users, s.client.username, false)
  {}

  lemma {:induction false} ReadIs(s: Sys, r: Received)
    requires s.client.open && (r.Data? ==> RecvBuffer(r.mem))
    ensures var t := ReadSys(s, r);
            if t.client.open then SessionOf(t.client) == SessionOf(s.client) && t.users == s.users
            else t.users == Toggle(s.users, s.client.username, false)
  {}

  /** The session and the table after the command that an event dequeues, if any. */
  function AfterCommand(s: Sys, e: Event): (Session, UserTable)
    requires SysOk(s) && s.client.open
  {
    if Dequeues(s, e) then
      var o := Respond(SessionOf(s.client), Request(Taken(s.client.list[0]), s.users, s.store));
      (o.session, o.users)
    else (SessionOf(s.client), s.users)
  }

  lemma {:induction false} SlotIs(s: Sys, e: Event)
    requires SysOk(s) && EventOk(e) && !e.Environment? && !s.overrun && s.client.open
    ensures var (q, u) := AfterCommand(s, e);
            var t := Apply(s, e);
            if t.client.open then SessionOf(t.client) == q && t.users == u else t.users == Toggle(u, q.username, false)
  {
    match e
    case Readable(r) => if s.client.mode == READING { ReadIs(s, r); }
    case Writable(junk, sent) =>
      if s.client.mode == WRITING {
        ExecuteKeeps(s, junk);
        ExecuteDoes(s, junk);
        SendIs(Execute(s, junk), sent);
      }
  }

  // ------------------------------------------------------ the two agree

  lemma {:induction false} WorldUpdate(v: Server, id: int, t: Sys, u: UserTable, overrun: bool)
    ensures WorldOf(Server(v.slots[id := t], u, overrun)) ==
              Login.World(u, if t.client.open then WorldOf(v).sessions[id := SessionOf(t.client)]
                             else WorldOf(v).sessions - {id})
  {}

  lemma {:induction false} NoMove(w: Login.World)
    requires Login.WorldOk(w)
    ensures Login.Moves(w, []) == w
  {}

  lemma {:induction false} OneMove(w: Login.World, m: Login.Move)
    requires Login.WorldOk(w) && Login.MoveOk(m)
    ensures Login.WorldOk(Login.Step(w, m)) && Login.Moves(w, [m]) == Login.Step(w, m)
  {
    Login.StepOk(w, m);
    assert [m][1..] == [];
  }

  lemma {:induction false} TwoMoves(w: Login.World, m: Login.Move, n: Login.Move)
    requires Login.WorldOk(w) && Login.MoveOk(m) && Login.MoveOk(n)
    ensures Login.WorldOk(Login.Step(w, m)) && Login.Moves(w, [m, n]) == Login.Step(Login.Step(w, m), n)
  {
    Login.StepOk(w, m);
    OneMove(Login.Step(w, m), n);
    assert [m, n][1..] == [n];
  }

  /** What is left of a world in which connection `id` has come to session `q`
      and table `u`, and then hangs up or stays. */
  function Left(w: Login.World, id: int, q: Session, u: UserTable, hangs: bool): Login.World {
    if hangs then Login.World(Toggle(u, q.username, false), w.sessions - {id}) else Login.World(u, w.sessions[id := q])
  }

  lemma {:induction false} RunAndHangAre(w: Login.World, id: int, cmd: ToExecute, store: Store, hangs: bool)
    requires Login.WorldOk(w) && StoreOk(store) && id in w.sessions
    ensures var o := Respond(w.sessions[id], Request(cmd, w.users, store));
            Login.Moves(w, RunAndHang(id, cmd, store, hangs)) == Left(w, id, o.session, o.users, hangs)
  {
    var run, off := Login.Command(id, cmd, store), Login.Hangup(id);
    if hangs {
      TwoMoves(w, run, off);
      var o := Respond(w.sessions[id], Request(cmd, w.users, store));
      assert w.sessions[id := o.session] - {id} == w.sessions - {id};
    } else {
      OneMove(w, run);
    }
  }

  lemma {:induction false} HangOnly(w: Login.World, id: int, hangs: bool)
    requires Login.WorldOk(w) && id in w.sessions
    ensures Login.Moves(w, if hangs then [Login.Hangup(id)] else []) == Left(w, id, w.sessions[id], w.users, hangs)
  {
    if hangs {
      OneMove(w, Login.Hangup(id));
    } else {
      NoMove(w);
      assert w.sessions[id := w.sessions[id]] == w.sessions;
    }
  }

  lemma {:induction false} SlotMovesAre(w: Login.World, id: int, s: Sys, e: Event, hangs: bool)
    requires SysOk(s) && EventOk(e) && s.client.open && Login.WorldOk(w) && StoreOk(s.store)
    requires w.users == s.users && id in w.sessions && w.sessions[id] == SessionOf(s.client)
    ensures forall i :: 0 <= i < |MovesIf(id, s, e, hangs)| ==> Login.MoveOk(MovesIf(id, s, e, hangs)[i])
    ensures var (q, u) := AfterCommand(s, e);
            Login.Moves(w, MovesIf(id, s, e, hangs)) == Left(w, id, q, u, hangs)
  {
    if Dequeues(s, e) {
      RunAndHangAre(w, id, Taken(s.client.list[0]), s.store, hangs);
    } else {
      HangOnly(w, id, hangs);
    }
  }

  /** The moves `ms` lead from `w` to `w1`. */
  ghost predicate Leads(w: Login.World, ms: seq<Login.Move>, w1: Login.World) {
    Login.WorldOk(w) && (forall i :: 0 <= i < |ms| ==> Login.MoveOk(ms[i])) && Login.Moves(w, ms) == w1
  }

  lemma {:induction false} SlotAgrees(v: Server, id: int, s: Sys, e: Event)
    requires ServerOk(v) && id in v.slots && s == v.slots[id].(users := v.users, store := s.store)
    requires SysOk(s) && EventOk(e) && !e.Environment? && !s.overrun
    ensures var t := Apply(s, e);
            Leads(WorldOf(v), SlotMoves(id, s, e), WorldOf(Server(v.slots[id := t], t.users, t.overrun)))
  {
    WorldIsOk(v);
    var w, t := WorldOf(v), Apply(s, e);
    WorldUpdate(v, id, t, t.users, t.overrun);
    if s.client.open {
      SlotIs(s, e);
      SlotMovesAre(w, id, s, e, !t.client.open);
    } else {
      ClosedStays(s, e);
      NoMove(w);
      assert w.sessions - {id} == w.sessions;
    }
  }

  lemma {:induction false} ClosedStays(s: Sys, e: Event)
    requires SysOk(s) && EventOk(e) && !e.Environment? && !s.client.open
    ensures Apply(s, e) == s && SlotMoves(0, s, e) == []
  {}

  lemma {:induction false} AcceptAgrees(v: Server, id: int, store: Store)
    requires ServerOk(v) && StoreOk(store) && !v.overrun && !(id in v.slots && v.slots[id].client.open)
    ensures Leads(WorldOf(v), [Login.Connect(id)], WorldOf(v.(slots := v.slots[id := Start(v.users, store)])))
  {
    WorldIsOk(v);
    WorldUpdate(v, id, Start(v.users, store), v.users, false);
    OneMove(WorldOf(v), Login.Connect(id));
    assert SessionOf(ACCEPTED) == NEWSESSION;
  }

  function CarryMoves(u: UserTable, h: Mp3p.Headers, s: Mp3p.Strategy): seq<Login.Move>
    requires Mp3p.HasArguments(s, h)
  {
    match s
    case ModifyUserPassword => [Login.ChangePassword(h.username.value, h.password.value)]
    case AddUser =>
      if h.username.value in u then [Login.ChangePassword(h.username.value, h.password.value)]
      else [Login.InsertUser(h.username.value, h.password.value)]
    case DeleteUser => [Login.DeleteUser(h.username.value)]
    case _ => []
  }

  lemma {:induction false} CarryAgrees(w: Login.World, h: Mp3p.Headers, s: Mp3p.Strategy)
    requires Mp3p.HasArguments(s, h) && Login.WorldOk(w)
    ensures Leads(w, CarryMoves(w.users, h, s), w.(users := Mp3p.Carry(s, h, w.users).0))
  {
    var ms := CarryMoves(w.users, h, s);
    if ms == [] {
      NoMove(w);
    } else {
      OneMove(w, ms[0]);
      assert ms == [ms[0]];
    }
  }

  lemma {:induction false} DatagramAgrees(v: Server, text: string, u: UserTable)
    requires ServerOk(v) && Mp3p.Received(text) && Mp3p.Request(text, v.users).Some?
    requires u == Mp3p.Request(text, v.users).value.0
    ensures Leads(WorldOf(v), DatagramMoves(v.users, text), WorldOf(v.(users := u)))
  {
    WorldIsOk(v);
    match Mp3p.OutcomeOf(text)
    case Parsed(h, s) =>
      Mp3p.ArgumentsCopied(text);
      CarryAgrees(WorldOf(v), h, s);
    case _ => NoMove(WorldOf(v));
  }

  /** Every event of the server is the moves it was said to be: what the slots
      have logged in to changes as the sequential reference says, or not at all. */
  lemma {:induction false} StepIsMoves(v: Server, h: Happening)
    requires ServerOk(v) && HappeningOk(h)
    ensures Leads(WorldOf(v), MovesOf(v, h), WorldOf(Step(v, h)))
  {
    WorldIsOk(v);
    NoMove(WorldOf(v));
    if !v.overrun {
      match h
      case Accept(id, store) => if !(id in v.slots && v.slots[id].client.open) { AcceptAgrees(v, id, store); }
      case Slot(id, store, e) =>
        if id in v.slots {
          NowOk(v, id, store);
          SlotAgrees(v, id, Now(v, id, store), e);
        }
      case Datagram(text) => DatagramStep(v, text);
    }
  }

  lemma {:induction false} DatagramStep(v: Server, text: string)
    requires ServerOk(v) && Mp3p.Received(text) && !v.overrun
    ensures Leads(WorldOf(v), DatagramMoves(v.users, text), WorldOf(Step(v, Datagram(text))))
  {
    match Mp3p.Request(text, v.users)
    case Some((u, _)) => DatagramAgrees(v, text, u);
    case None =>
      WorldIsOk(v);
      NoMove(WorldOf(v));
      WorldFlag(v);
  }

  lemma {:induction false} WorldFlag(v: Server)
    ensures WorldOf(v.(overrun := true)) == WorldOf(v)
  {}

  /** The event that completes what is to be said after a QUIT takes the session
      out of the world and leaves the flag of its name down. */
  lemma {:induction false} QuitLeaves(v: Server, id: int, store: Store, junk: MailInfo, sent: int)
    requires ServerOk(v) && !v.overrun && id in v.slots && StoreOk(store)
    requires v.slots[id].client.open && v.slots[id].client.mode == WRITING && SysOk(Now(v, id, store))
    requires var c := Execute(Now(v, id, store), junk).client; c.phase == UPDATE && AllSaid(c, sent)
    ensures var w := WorldOf(Step(v, Slot(id, store, Writable(junk, sent))));
            id !in w.sessions && !IsConnected(w.users, Execute(Now(v, id, store), junk).client.username)
  {
    ClosesExactly(Now(v, id, store), Writable(junk, sent));
  }

  // ------------------------------------------------------------------- runs

  function RunServer(v: Server, hs: seq<Happening>): Server
    requires ServerOk(v) && forall i :: 0 <= i < |hs| ==> HappeningOk(hs[i])
    decreases |hs|
  {
    if hs == [] then v
    else
      StepKeeps(v, hs[0]);
      RunServer(Step(v, hs[0]), hs[1..])
  }

  /** No event of the run closes a slot that never logged in under a name that is
      held elsewhere, or registers anew a name that is held. */
  ghost predicate NeverSpoils(v: Server, hs: seq<Happening>)
    requires ServerOk(v) && forall i :: 0 <= i < |hs| ==> HappeningOk(hs[i])
    decreases |hs|
  {
    hs == [] ||
    (StepIsMoves(v, hs[0]); StepKeeps(v, hs[0]);
     Login.NoneSpoils(WorldOf(v), MovesOf(v, hs[0])) && NeverSpoils(Step(v, hs[0]), hs[1..]))
  }

  predicate LoggedIn(c: Client, name: string) { c.open && c.cache.Some? && c.username == name }

  /** At most one slot per user is logged in. */
  ghost predicate OneSlotEach(v: Server) {
    forall i, j, name ::
      i in v.slots && j in v.slots && LoggedIn(v.slots[i].client, name) && LoggedIn(v.slots[j].client, name) ==> i == j
  }

  lemma {:induction false} ExclusiveSlots(v: Server)
    requires Login.Exclusive(WorldOf(v))
    ensures OneSlotEach(v)
  {
    forall i, j, name |
      i in v.slots && j in v.slots && LoggedIn(v.slots[i].client, name) && LoggedIn(v.slots[j].client, name)
      ensures i == j
    {
      assert Login.LoggedIn(WorldOf(v), i, name) && Login.LoggedIn(WorldOf(v), j, name);
    }
  }

  lemma {:induction false} LoginsKept(v: Server, hs: seq<Happening>)
    requires ServerOk(v) && forall i :: 0 <= i < |hs| ==> HappeningOk(hs[i])
    requires Login.Exclusive(WorldOf(v)) && Login.FlagsRight(WorldOf(v)) && NeverSpoils(v, hs)
    ensures Login.Exclusive(WorldOf(RunServer(v, hs))) && Login.FlagsRight(WorldOf(RunServer(v, hs)))
    decreases |hs|
  {
    if hs != [] {
      StepIsMoves(v, hs[0]);
      StepKeeps(v, hs[0]);
      Login.ExclusiveLogin(WorldOf(v), MovesOf(v, hs[0]));
      LoginsKept(Step(v, hs[0]), hs[1..]);
    }
  }

  /** A server that has just been started with these users. */
  function Started(users: UserTable): Server { Server(map[], users, false) }

  /** Over every run of events of all connections and datagrams, in which nothing
      spoils the flags, at most one slot per user is logged in. */
  lemma {:induction false} OneSlotPerUser(users: UserTable, hs: seq<Happening>)
    requires forall name :: name in users ==> !users[name].connected
    requires (forall i :: 0 <= i < |hs| ==> HappeningOk(hs[i])) && NeverSpoils(Started(users), hs)
    ensures ServerOk(Started(users)) && OneSlotEach(RunServer(Started(users), hs))
  {
    var v := Started(users);
    assert forall id, name :: !Login.LoggedIn(WorldOf(v), id, name);
    LoginsKept(v, hs);
    ExclusiveSlots(RunServer(v, hs));
  }
}
