// Work does not go on for ever: as long as writable events send something,
// finitely many of them bring a connection to waiting for input or to closing.

module Progress {
  import opened Standards
  import opened Maildrop
  import opened Commands
  import opened CommandSyntax
  import opened Users
  import opened Session
  import opened ClientModel
  import opened Yielding
  import opened Invocation
  import opened System

  /** What is left of a command that has yielded. */
  function WorkLeft(c: Client): nat {
    if c.running == None || c.cache == None then 0
    else if c.running.value.callback == Some(RETR) then 1 + RetrWork(c.cache.value.retr)
    else if c.cache.value.it <= |c.cache.value.mails| then 1 + |c.cache.value.mails| - c.cache.value.it
    else 0
  }

  /** Queued commands, then the current one, then the buffered bytes. */
  ghost predicate Less(d: Client, c: Client) {
    |d.list| < |c.list| ||
    (|d.list| == |c.list| && (WorkLeft(d) < WorkLeft(c) || (WorkLeft(d) == WorkLeft(c) && |d.out| < |c.out|)))
  }

  /** Waiting for input, or gone. */
  predicate Settled(c: Client) { !c.open || c.mode == READING }

  lemma {:induction false} ResumedWorks(c: Client, u: UserTable, store: Store, e: Exchange, junk: MailInfo)
    requires InProgress(c, e) && Free(c) > MAX_SINGLE_LINE_RESPONSE
    ensures var i := Invoke(c, u, store, e.request.cmd, junk);
            i.status == NOT_FINISHED ==> WorkLeft(i.client.(running := Some(e.request.cmd))) < WorkLeft(c)
  {
    var k := c.cache.value;
    if e.request.cmd.callback == Some(LIST) {
      ListCallFits(k, Free(c), false, junk);
    } else {
      RetrCallFits(k, Free(c));
    }
  }

  lemma {:induction false} ResumedLess(s: Sys, junk: MailInfo)
    requires SysOk(s) && s.client.open && s.client.mode == WRITING && s.client.running.Some?
    requires Free(s.client) > MAX_SINGLE_LINE_RESPONSE
    ensures var d := Execute(s, junk).client;
            d.list == s.client.list && WorkLeft(d) < WorkLeft(s.client)
  {
    var c, e := s.client, s.log[|s.log| - 1];
    var i := Invoke(c, s.users, s.store, e.request.cmd, junk);
    ExecuteResumed(s, junk, e, i);
    ResumedCall(c, s.users, s.store, e, junk);
    ResumedWorks(c, s.users, s.store, e, junk);
    WorkDrops(c, s.users, e, i, Execute(s, junk).client);
  }

  lemma {:induction false} WorkDrops(c: Client, u: UserTable, e: Exchange, i: Invoked, d: Client)
    requires InProgress(c, e) && LaterOk(c, u, e, i) && c.running.Some?
    requires d == i.client.(out := c.out + i.text,
                            running := if i.status == NOT_FINISHED then Some(e.request.cmd) else None)
    requires i.status == NOT_FINISHED ==> WorkLeft(i.client.(running := Some(e.request.cmd))) < WorkLeft(c)
    ensures d.list == c.list && WorkLeft(d) < WorkLeft(c)
  {}

  lemma {:induction false} StartedLess(s: Sys, junk: MailInfo)
    requires SysOk(s) && s.client.open && s.client.mode == WRITING && s.client.running == None
    requires Free(s.client) > MAX_SINGLE_LINE_RESPONSE && Available(s.client.list)
    ensures |Execute(s, junk).client.list| < |s.client.list|
  {
    var c, cmd := s.client, Taken(s.client.list[0]);
    if cmd.callback == None || !Allowed(cmd.callback.value, c.phase) {
      RefuseKeeps(s, junk);
    } else {
      var c1 := c.(list := c.list[1..]);
      TailOk(c.list);
      var i := Invoke(c1, s.users, s.store, cmd, junk);
      ExecuteStarted(s, junk, cmd, c1, i);
      FirstCall(c1, s.users, s.store, cmd, junk);
    }
  }

  /** What the execution part does: nothing, or it takes from the queue or from
      the work of the current command. */
  lemma {:induction false} ExecuteLess(s: Sys, junk: MailInfo)
    requires SysOk(s) && s.client.open && s.client.mode == WRITING
    ensures var d := Execute(s, junk).client;
            d == s.client || |d.list| < |s.client.list| ||
            (|d.list| == |s.client.list| && WorkLeft(d) < WorkLeft(s.client))
    ensures Execute(s, junk).client == s.client ==>
              Free(s.client) <= MAX_SINGLE_LINE_RESPONSE || (s.client.running == None && !Available(s.client.list))
  {
    if Free(s.client) > MAX_SINGLE_LINE_RESPONSE {
      if s.client.running.Some? {
        ResumedLess(s, junk);
      } else if Available(s.client.list) {
        StartedLess(s, junk);
      }
    }
  }

  lemma {:induction false} SendLess(s: Sys, sent: int)
    requires SysOk(s) && s.client.open && sent != 0
    ensures var d := SendSys(s, sent).client;
            !d.open ||
            (d.list == s.client.list && WorkLeft(d) == WorkLeft(s.client) &&
             (if s.client.out == "" then d.out == "" else |d.out| < |s.client.out|) &&
             (d.out == "" && !Available(d.list) && d.running == None ==> d.mode == READING))
  {}

  /** A writable event settles the connection or lowers its measure. */
  lemma {:induction false} WritableLess(s: Sys, junk: MailInfo, sent: int)
    requires SysOk(s) && !s.overrun && s.client.open && s.client.mode == WRITING && sent != 0
    ensures var t := Apply(s, Writable(junk, sent));
            Settled(t.client) || Less(t.client, s.client)
  {
    ExecuteKeeps(s, junk);
    ExecuteLess(s, junk);
    SendLess(Execute(s, junk), sent);
  }

  /** One turn: others may act, then the connection is writable and the send
      fails or takes at least one byte of what is buffered. */
  datatype Turn = Turn(users: UserTable, store: Store, junk: MailInfo, sent: int)

  ghost predicate TurnOk(t: Turn) { StoreOk(t.store) && t.sent != 0 }

  function Take(s: Sys, t: Turn): Sys
    requires SysOk(s) && !s.overrun && TurnOk(t)
  {
    EnvironmentKeeps(s, t.users, t.store);
    Apply(s.(users := t.users, store := t.store), Writable(t.junk, t.sent))
  }

  /** `n` turns from `s`, the first being number `k` of the schedule. */
  ghost function Turns(s: Sys, schedule: nat -> Turn, k: nat, n: nat): Sys
    requires SysOk(s) && !s.overrun && forall i: nat :: TurnOk(schedule(i))
    decreases n
  {
    if n == 0 then s
    else
      TakeKeeps(s, schedule(k));
      Turns(Take(s, schedule(k)), schedule, k + 1, n - 1)
  }

  lemma {:induction false} TakeKeeps(s: Sys, t: Turn)
    requires SysOk(s) && !s.overrun && TurnOk(t)
    ensures SysOk(Take(s, t)) && !Take(s, t).overrun
  {
    var s0 := s.(users := t.users, store := t.store);
    EnvironmentKeeps(s, t.users, t.store);
    ApplyKeeps(s0, Writable(t.junk, t.sent));
    WritableStays(s0, t.junk, t.sent);
  }

  /** Only parsing can leave a buffer. */
  lemma {:induction false} WritableStays(s: Sys, junk: MailInfo, sent: int)
    requires SysOk(s)
    ensures Apply(s, Writable(junk, sent)).overrun == s.overrun
  {
    if s.client.open && s.client.mode == WRITING {
      ExecuteStays(s, junk);
      SendStays(Execute(s, junk), sent);
    }
  }

  lemma {:induction false} ExecuteStays(s: Sys, junk: MailInfo)
    requires SysOk(s) && s.client.open
    ensures Execute(s, junk).overrun == s.overrun
  {}

  lemma {:induction false} SendStays(s: Sys, sent: int)
    ensures ReapSys(SendSys(s, sent)).overrun == s.overrun
  {}

  lemma {:induction false} TakeLess(s: Sys, t: Turn)
    requires SysOk(s) && !s.overrun && TurnOk(t) && !Settled(s.client)
    ensures Settled(Take(s, t).client) || Less(Take(s, t).client, s.client)
  {
    EnvironmentKeeps(s, t.users, t.store);
    WritableLess(s.(users := t.users, store := t.store), t.junk, t.sent);
  }

  lemma {:induction false} OneTurnMore(s: Sys, schedule: nat -> Turn, k: nat, m: nat)
    requires SysOk(s) && !s.overrun && forall i: nat :: TurnOk(schedule(i))
    ensures SysOk(Take(s, schedule(k))) && !Take(s, schedule(k)).overrun
    ensures Turns(s, schedule, k, m + 1) == Turns(Take(s, schedule(k)), schedule, k + 1, m)
    ensures Turns(s, schedule, k, 0) == s
  {
    TakeKeeps(s, schedule(k));
  }

  /** Under every endless schedule of such turns, some finite number of them
      settles the connection. */
  lemma {:induction false} Settles(s: Sys, schedule: nat -> Turn, k: nat) returns (n: nat)
    requires SysOk(s) && !s.overrun && forall i: nat :: TurnOk(schedule(i))
    ensures Settled(Turns(s, schedule, k, n).client)
    decreases |s.client.list|, WorkLeft(s.client), |s.client.out|, 1
  {
    OneTurnMore(s, schedule, k, 0);
    if Settled(s.client) {
      n := 0;
    } else {
      TakeLess(s, schedule(k));
      n := SettlesAfter(s, schedule, k, Take(s, schedule(k)));
      OneTurnMore(s, schedule, k, n);
      n := n + 1;
    }
  }

  lemma {:induction false} SettlesAfter(s: Sys, schedule: nat -> Turn, k: nat, t: Sys) returns (m: nat)
    requires SysOk(t) && !t.overrun && forall i: nat :: TurnOk(schedule(i))
    requires Settled(t.client) || Less(t.client, s.client)
    ensures Settled(Turns(t, schedule, k + 1, m).client)
    decreases |s.client.list|, WorkLeft(s.client), |s.client.out|, 0
  {
    if Settled(t.client) {
      OneTurnMore(t, schedule, k + 1, 0);
      m := 0;
    } else {
      m := Settles(t, schedule, k + 1);
    }
  }

  // ------------------------------------------------------------- after a QUIT

  /** After a QUIT no command leads back. */
  lemma {:induction false} UpdateForGood(q: Session, r: Request)
    requires SessionOk(q) && q.phase == UPDATE
    ensures Respond(q, r).session.phase == UPDATE
  {}

  lemma {:induction false} ExecuteStaysUpdate(s: Sys, junk: MailInfo)
    requires SysOk(s) && s.client.open && s.client.mode == WRITING && s.client.phase == UPDATE
    ensures Execute(s, junk).client.phase == UPDATE
  {
    ExecuteDoes(s, junk);
    if s.client.running == None && Available(s.client.list) {
      UpdateForGood(SessionOf(s.client), Request(Taken(s.client.list[0]), s.users, s.store));
    }
  }

  /** A QUIT was carried out, and the slot is not left waiting. */
  ghost predicate Leaving(s: Sys) {
    SysOk(s) && !s.overrun && NoneLeftOpen(s) && (s.client.open ==> s.client.phase == UPDATE)
  }

  lemma {:induction false} UpdateStays(s: Sys, t: Turn)
    requires Leaving(s) && TurnOk(t)
    ensures Leaving(Take(s, t))
  {
    TakeKeeps(s, t);
    var s0 := s.(users := t.users, store := t.store);
    EnvironmentKeeps(s, t.users, t.store);
    ApplyLeavesNone(s0, Writable(t.junk, t.sent));
    if s0.client.open && s0.client.mode == WRITING {
      ExecuteKeeps(s0, t.junk);
      ExecuteStaysUpdate(s0, t.junk);
      SendCloses(Execute(s0, t.junk), t.sent);
    }
  }

  lemma {:induction false} UpdateTurn(s: Sys, schedule: nat -> Turn, k: nat, m: nat) returns (s1: Sys)
    requires Leaving(s) && forall i: nat :: TurnOk(schedule(i))
    ensures Leaving(s1) && Turns(s, schedule, k, m + 1) == Turns(s1, schedule, k + 1, m)
  {
    OneTurnMore(s, schedule, k, m);
    UpdateStays(s, schedule(k));
    s1 := Take(s, schedule(k));
  }

  lemma {:induction false} UpdateStaysOn(s: Sys, schedule: nat -> Turn, k: nat, n: nat) returns (t: Sys)
    requires Leaving(s) && forall i: nat :: TurnOk(schedule(i))
    ensures t == Turns(s, schedule, k, n) && Leaving(t)
    decreases n
  {
    if n == 0 {
      OneTurnMore(s, schedule, k, 0);
      t := s;
    } else {
      var s1 := UpdateTurn(s, schedule, k, n - 1);
      t := UpdateStaysOn(s1, schedule, k + 1, n - 1);
    }
  }

  /** From the moment a QUIT was carried out, every endless schedule closes the
      slot after finitely many turns. */
  lemma {:induction false} QuitCloses(s: Sys, schedule: nat -> Turn, k: nat) returns (n: nat)
    requires Leaving(s) && forall i: nat :: TurnOk(schedule(i))
    ensures !Turns(s, schedule, k, n).client.open
  {
    n := Settles(s, schedule, k);
    var t := UpdateStaysOn(s, schedule, k, n);
  }
}
