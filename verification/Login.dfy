// Exclusive login: the connected flags of the user table against the sessions
// that are logged in, over runs of many connections and of the monitoring
// protocol that changes the table.

module Login {
  import opened Standards
  import opened Commands
  import opened CommandSyntax
  import opened Users
  import opened Session

  /** The user table and the open connections. */
  datatype World = World(users: UserTable, sessions: map<int, Session>)

  datatype Move =
    | Connect(id: int)
    | Command(id: int, cmd: ToExecute, store: Store)
    | Hangup(id: int)
    | InsertUser(name: string, password: string)
    | DeleteUser(name: string)
    | ChangePassword(name: string, password: string)

  ghost predicate WorldOk(w: World) { forall id :: id in w.sessions ==> SessionOk(w.sessions[id]) }

  function Step(w: World, m: Move): World
    requires WorldOk(w)
  {
    match m
    case Connect(id) => if id in w.sessions then w else w.(sessions := w.sessions[id := NEWSESSION])
    case Command(id, cmd, store) =>
      if id !in w.sessions then w
      else
        var o := Respond(w.sessions[id], Request(cmd, w.users, store));
        World(o.users, w.sessions[id := o.session])
    case Hangup(id) =>
      if id !in w.sessions then w
      else World(Toggle(w.users, w.sessions[id].username, false), w.sessions - {id})
    case InsertUser(name, password) => w.(users := Insert(w.users, name, password))
    case DeleteUser(name) => w.(users := w.users - {name})
    case ChangePassword(name, password) => w.(users := ModifyPassword(w.users, name, password))
  }

  /** The connection has logged in. */
  predicate LoggedIn(w: World, id: int, name: string) {
    id in w.sessions && w.sessions[id].box.Some? && w.sessions[id].username == name
  }

  ghost predicate Held(w: World, name: string) { exists id :: LoggedIn(w, id, name) }

  /** No two connections are logged in as the same user. */
  ghost predicate Exclusive(w: World) {
    forall i, j, name :: LoggedIn(w, i, name) && LoggedIn(w, j, name) ==> i == j
  }

  /** The flags say who is logged in. */
  ghost predicate FlagsRight(w: World) {
    forall name :: name in w.users ==> (w.users[name].connected <==> Held(w, name))
  }

  /** A connection that never logged in closes after typing the name of a user
      who is logged in elsewhere; or a name that is still logged in is
      registered again after a deletion. */
  ghost predicate Spoils(w: World, m: Move) {
    match m
    case Hangup(id) =>
      id in w.sessions && w.sessions[id].box == None && w.sessions[id].username in w.users &&
      Held(w, w.sessions[id].username)
    case InsertUser(name, _) => name !in w.users && Held(w, name)
    case _ => false
  }

  ghost predicate MoveOk(m: Move) { m.Command? ==> StoreOk(m.store) }

  lemma {:induction false} StepOk(w: World, m: Move)
    requires WorldOk(w) && MoveOk(m)
    ensures WorldOk(Step(w, m))
  {
    if m.Command? && m.id in w.sessions {
      RespondKeeps(w.sessions[m.id], Request(m.cmd, w.users, m.store));
    }
  }

  /** What one command does to a login: nothing, or a PASS that found the flag
      down logs in and raises it. */
  lemma {:induction false} CommandLogin(s: Session, r: Request)
    requires SessionOk(s) && StoreOk(r.store)
    ensures var o := Respond(s, r);
            if s.box == None && o.session.box.Some?
            then o.session.username == s.username && s.username in r.users && !r.users[s.username].connected &&
                 o.users == Toggle(r.users, s.username, true)
            else o.users == r.users && (s.box.Some? <==> o.session.box.Some?) &&
                 (s.box.Some? ==> o.session.username == s.username)
  {}

  /** Other connections are not touched by a move of connection `id`. */
  lemma {:induction false} OthersKeep(w: World, v: World, id: int, name: string)
    requires forall j :: j != id ==> (j in w.sessions <==> j in v.sessions)
    requires forall j :: j != id && j in w.sessions ==> v.sessions[j] == w.sessions[j]
    ensures LoggedIn(w, id, name) == LoggedIn(v, id, name) ==> (Held(w, name) <==> Held(v, name))
    ensures forall j :: j != id ==> LoggedIn(w, j, name) == LoggedIn(v, j, name)
  {
    if LoggedIn(w, id, name) == LoggedIn(v, id, name) {
      if Held(w, name) { var j :| LoggedIn(w, j, name); assert LoggedIn(v, j, name); }
      if Held(v, name) { var j :| LoggedIn(v, j, name); assert LoggedIn(w, j, name); }
    }
  }

  lemma {:induction false} CommandKeeps(w: World, id: int, cmd: ToExecute, store: Store)
    requires WorldOk(w) && StoreOk(store) && Exclusive(w) && FlagsRight(w)
    ensures var v := Step(w, Command(id, cmd, store)); Exclusive(v) && FlagsRight(v)
  {
    if id in w.sessions {
      var v := Step(w, Command(id, cmd, store));
      var s, t := w.sessions[id], v.sessions[id];
      CommandLogin(s, Request(cmd, w.users, store));
      var loggingIn := s.box == None && t.box.Some?;
      if loggingIn { assert LoggedIn(v, id, s.username) && !Held(w, s.username); }
      forall i, j, name | LoggedIn(v, i, name) && LoggedIn(v, j, name) ensures i == j {
        OthersKeep(w, v, id, name);
        LoginElsewhere(w, v, id, name, i, j, loggingIn);
      }
      forall name | name in v.users ensures v.users[name].connected <==> Held(v, name) {
        OthersKeep(w, v, id, name);
      }
    }
  }

  lemma {:induction false} LoginElsewhere(w: World, v: World, id: int, name: string, i: int, j: int, loggingIn: bool)
    requires Exclusive(w) && LoggedIn(v, i, name) && LoggedIn(v, j, name)
    requires forall k :: k != id ==> LoggedIn(w, k, name) == LoggedIn(v, k, name)
    requires LoggedIn(v, id, name) ==> LoggedIn(w, id, name) || !Held(w, name)
    ensures i == j
  {
    assert i != id ==> LoggedIn(w, i, name);
    assert j != id ==> LoggedIn(w, j, name);
  }

  lemma {:induction false} HangupExactly(w: World, id: int)
    requires WorldOk(w) && Exclusive(w) && FlagsRight(w)
    ensures var v := Step(w, Hangup(id)); Exclusive(v) && (FlagsRight(v) <==> !Spoils(w, Hangup(id)))
  {
    if id in w.sessions {
      var v := Step(w, Hangup(id));
      var typed := w.sessions[id].username;
      forall i, j, name | LoggedIn(v, i, name) && LoggedIn(v, j, name) ensures i == j {
        assert LoggedIn(w, i, name) && LoggedIn(w, j, name);
      }
      forall name ensures Held(v, name) <==> exists j :: j != id && LoggedIn(w, j, name) {
        OthersKeep(w, v, id, name);
        if Held(v, name) { var j :| LoggedIn(v, j, name); assert j != id && LoggedIn(w, j, name); }
        if j :| j != id && LoggedIn(w, j, name) { assert LoggedIn(v, j, name); }
      }
      forall name | name in v.users && (name != typed || !Spoils(w, Hangup(id)))
        ensures v.users[name].connected <==> Held(v, name)
      {
        HangupFlag(w, v, id, name);
      }
      if Spoils(w, Hangup(id)) {
        var j :| LoggedIn(w, j, typed);
        assert j != id && LoggedIn(v, j, typed);
        assert typed in v.users && !v.users[typed].connected && Held(v, typed);
      }
    } else {
      assert Step(w, Hangup(id)) == w;
    }
  }

  lemma {:induction false} HangupFlag(w: World, v: World, id: int, name: string)
    requires WorldOk(w) && Exclusive(w) && FlagsRight(w) && id in w.sessions && v == Step(w, Hangup(id))
    requires name in v.users && (name != w.sessions[id].username || !Spoils(w, Hangup(id)))
    requires Held(v, name) <==> exists j :: j != id && LoggedIn(w, j, name)
    ensures v.users[name].connected <==> Held(v, name)
  {
    if name != w.sessions[id].username {
      assert !LoggedIn(w, id, name);
      assert Held(w, name) <==> Held(v, name);
    } else if w.sessions[id].box.Some? {
      assert LoggedIn(w, id, name);
    }
  }

  lemma {:induction false} TableExactly(w: World, m: Move)
    requires WorldOk(w) && Exclusive(w) && FlagsRight(w)
    requires m.InsertUser? || m.DeleteUser? || m.ChangePassword?
    ensures var v := Step(w, m); Exclusive(v) && (FlagsRight(v) <==> !Spoils(w, m))
  {
    var v := Step(w, m);
    assert forall id, name :: LoggedIn(v, id, name) == LoggedIn(w, id, name);
    assert forall name :: Held(v, name) <==> Held(w, name);
    if Spoils(w, m) {
      assert m.name in v.users && !v.users[m.name].connected && Held(v, m.name);
    }
  }

  lemma {:induction false} ConnectKeeps(w: World, id: int)
    requires WorldOk(w) && Exclusive(w) && FlagsRight(w)
    ensures var v := Step(w, Connect(id)); Exclusive(v) && FlagsRight(v)
  {
    var v := Step(w, Connect(id));
    assert forall j, name :: LoggedIn(v, j, name) == LoggedIn(w, j, name);
    assert forall name :: Held(v, name) <==> Held(w, name);
  }

  /** From right flags, a move leaves them right exactly if it does not spoil
      them; no single move can break exclusiveness. */
  lemma {:induction false} FlagsExactly(w: World, m: Move)
    requires WorldOk(w) && MoveOk(m) && Exclusive(w) && FlagsRight(w)
    ensures Exclusive(Step(w, m)) && (FlagsRight(Step(w, m)) <==> !Spoils(w, m))
  {
    match m
    case Connect(id) => ConnectKeeps(w, id);
    case Command(id, cmd, store) => CommandKeeps(w, id, cmd, store);
    case Hangup(id) => HangupExactly(w, id);
    case _ => TableExactly(w, m);
  }

  function Moves(w: World, ms: seq<Move>): World
    requires WorldOk(w) && forall i :: 0 <= i < |ms| ==> MoveOk(ms[i])
    decreases |ms|
  {
    if ms == [] then w
    else
      StepOk(w, ms[0]);
      Moves(Step(w, ms[0]), ms[1..])
  }

  ghost predicate NoneSpoils(w: World, ms: seq<Move>)
    requires WorldOk(w) && forall i :: 0 <= i < |ms| ==> MoveOk(ms[i])
    decreases |ms|
  {
    ms == [] || (!Spoils(w, ms[0]) && (StepOk(w, ms[0]); NoneSpoils(Step(w, ms[0]), ms[1..])))
  }

  /** In every run without a spoiling move at most one connection per user is
      logged in, and the flags say which. */
  lemma {:induction false} ExclusiveLogin(w: World, ms: seq<Move>)
    requires WorldOk(w) && forall i :: 0 <= i < |ms| ==> MoveOk(ms[i])
    requires Exclusive(w) && FlagsRight(w) && NoneSpoils(w, ms)
    ensures Exclusive(Moves(w, ms)) && FlagsRight(Moves(w, ms))
    decreases |ms|
  {
    if ms != [] {
      FlagsExactly(w, ms[0]);
      StepOk(w, ms[0]);
      ExclusiveLogin(Step(w, ms[0]), ms[1..]);
    }
  }

  /** One spoiling hangup is enough: the next PASS of a third connection logs
      the same user in a second time. */
  lemma {:induction false} SpoiledLogin(w: World, holder: int, typer: int, third: int, name: string, store: Store)
    requires WorldOk(w) && StoreOk(store) && holder != typer && typer != third && third != holder
    requires LoggedIn(w, holder, name) && name in w.users
    requires typer in w.sessions && w.sessions[typer].box == None && w.sessions[typer].username == name
    requires third in w.sessions && w.sessions[third].phase == AUTHENTICATION && w.sessions[third].username == name
    ensures var w1 := Step(w, Hangup(typer));
            WorldOk(w1) &&
            var pass := Command(third, ToExecute("PASS", w.users[name].password, "", Some(PASS)), store);
            !Exclusive(Step(w1, pass))
  {
    var w1 := Step(w, Hangup(typer));
    var cmd := ToExecute("PASS", w.users[name].password, "", Some(PASS));
    var w2 := Step(w1, Command(third, cmd, store));
    assert LoggedIn(w2, holder, name) && LoggedIn(w2, third, name);
  }

  /** No users, no connections. */
  const EMPTY := World(map[], map[])

  function Say(id: int, verb: Verb, arg: string): Move {
    Command(id, ToExecute(Keyword(verb), arg, "", Some(verb)), map[])
  }

  /** One user is registered and logs in; two others type the same name. */
  function Crowd(name: string, password: string): seq<Move> {
    [InsertUser(name, password),
     Connect(1), Say(1, USER, name), Say(1, PASS, password),
     Connect(2), Say(2, USER, name),
     Connect(3), Say(3, USER, name)]
  }

  function Typed(name: string): Session { NEWSESSION.(username := name) }

  function Inside(name: string): Session { Session(TRANSACTION, name, Some([])) }

  /** The worlds on the way: registered, connected, named, logged in; then two more. */
  function Registered(name: string, password: string, connected: bool, sessions: map<int, Session>): World {
    World(map[name := Account(password, connected)], sessions)
  }

  function Crowded(name: string, password: string): World {
    Registered(name, password, true, map[1 := Inside(name), 2 := Typed(name), 3 := Typed(name)])
  }

  lemma {:induction false} FirstSteps(name: string, password: string)
    ensures Step(EMPTY, InsertUser(name, password)) == Registered(name, password, false, map[])
    ensures Step(Registered(name, password, false, map[]), Connect(1)) ==
              Registered(name, password, false, map[1 := NEWSESSION])
    ensures var w := Registered(name, password, false, map[1 := NEWSESSION]);
            WorldOk(w) && Step(w, Say(1, USER, name)) == Registered(name, password, false, map[1 := Typed(name)])
    ensures var w := Registered(name, password, false, map[1 := Typed(name)]);
            WorldOk(w) && Step(w, Say(1, PASS, password)) == Registered(name, password, true, map[1 := Inside(name)])
  {}

  lemma {:induction false} NextSteps(name: string, password: string, ss: map<int, Session>, id: int)
    requires WorldOk(Registered(name, password, true, ss)) && id !in ss
    ensures var w := Registered(name, password, true, ss);
            Step(w, Connect(id)) == Registered(name, password, true, ss[id := NEWSESSION])
    ensures var w := Registered(name, password, true, ss[id := NEWSESSION]);
            WorldOk(w) && Step(w, Say(id, USER, name)) == Registered(name, password, true, ss[id := Typed(name)])
  {
    assert ss[id := NEWSESSION][id := Typed(name)] == ss[id := Typed(name)];
  }

  lemma {:induction false} FirstIn(name: string, password: string, ms: seq<Move>)
    requires forall i :: 0 <= i < |ms| ==> MoveOk(ms[i])
    ensures var w := Registered(name, password, true, map[1 := Inside(name)]);
            WorldOk(EMPTY) && WorldOk(w) &&
            Moves(EMPTY, [InsertUser(name, password)] +
              ([Connect(1)] + ([Say(1, USER, name)] + ([Say(1, PASS, password)] + ms)))) ==
            Moves(w, ms)
  {
    FirstSteps(name, password);
    var ms1 := [Say(1, PASS, password)] + ms;
    var ms2 := [Say(1, USER, name)] + ms1;
    MovesStep(EMPTY, InsertUser(name, password), [Connect(1)] + ms2);
    MovesStep(Registered(name, password, false, map[]), Connect(1), ms2);
    MovesStep(Registered(name, password, false, map[1 := NEWSESSION]), Say(1, USER, name), ms1);
    MovesStep(Registered(name, password, false, map[1 := Typed(name)]), Say(1, PASS, password), ms);
  }

  lemma {:induction false} OneMore(name: string, password: string, ss: map<int, Session>, id: int, ms: seq<Move>)
    requires WorldOk(Registered(name, password, true, ss)) && id !in ss && forall i :: 0 <= i < |ms| ==> MoveOk(ms[i])
    ensures var w := Registered(name, password, true, ss[id := Typed(name)]);
            WorldOk(w) && Moves(Registered(name, password, true, ss), [Connect(id)] + ([Say(id, USER, name)] + ms)) ==
                Moves(w, ms)
  {
    NextSteps(name, password, ss, id);
    MovesStep(Registered(name, password, true, ss), Connect(id), [Say(id, USER, name)] + ms);
    MovesStep(Registered(name, password, true, ss[id := NEWSESSION]), Say(id, USER, name), ms);
  }

  lemma {:induction false} CrowdIs(name: string, password: string)
    ensures forall i :: 0 <= i < |Crowd(name, password)| ==> MoveOk(Crowd(name, password)[i])
    ensures WorldOk(EMPTY) && Moves(EMPTY, Crowd(name, password)) == Crowded(name, password)
  {
    var one := map[1 := Inside(name)];
    var two := one[2 := Typed(name)];
    var third := [Connect(3)] + ([Say(3, USER, name)] + []);
    var second := [Connect(2)] + ([Say(2, USER, name)] + third);
    FirstIn(name, password, second);
    OneMore(name, password, one, 2, third);
    OneMore(name, password, two, 3, []);
    assert two[3 := Typed(name)] == map[1 := Inside(name), 2 := Typed(name), 3 := Typed(name)];
    assert Crowd(name, password) ==
      [InsertUser(name, password)] + ([Connect(1)] + ([Say(1, USER, name)] + ([Say(1, PASS, password)] + second)));
  }

  /** From an empty server: one user is logged in and the flags are right; then
      the second connection closes without having logged in, and the third logs
      in as the same user. */
  lemma {:induction false} SpoiledRun(name: string, password: string)
    ensures WorldOk(EMPTY) && forall i :: 0 <= i < |Crowd(name, password)| ==> MoveOk(Crowd(name, password)[i])
    ensures var w := Moves(EMPTY, Crowd(name, password));
            WorldOk(w) && Exclusive(w) && FlagsRight(w) && Spoils(w, Hangup(2)) && WorldOk(Step(w, Hangup(2))) &&
            !Exclusive(Step(Step(w, Hangup(2)), Say(3, PASS, password)))
  {
    CrowdIs(name, password);
    var w := Crowded(name, password);
    assert LoggedIn(w, 1, name);
    assert forall id, n :: LoggedIn(w, id, n) <==> id == 1 && n == name;
    assert Keyword(PASS) == "PASS";
    SpoiledLogin(w, 1, 2, 3, name, map[]);
  }

  lemma {:induction false} MovesStep(w: World, m: Move, ms: seq<Move>)
    requires WorldOk(w) && MoveOk(m) && forall i :: 0 <= i < |ms| ==> MoveOk(ms[i])
    ensures WorldOk(Step(w, m)) && Moves(w, [m] + ms) == Moves(Step(w, m), ms)
  {
    StepOk(w, m);
    assert ([m] + ms)[1..] == ms;
  }
}
