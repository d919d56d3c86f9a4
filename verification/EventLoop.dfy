// What one round of the event loop does with a slot: the partial send, the
// receive, the reserve that is asked for before a command runs, and closing.

module EventLoop {
  import opened Standards
  import opened CircularBuffer
  import opened Commands
  import opened CommandSyntax
  import opened CommandParser
  import opened Maildrop
  import opened Users
  import opened Session
  import opened ClientModel
  import opened Clients
  import opened Server
  import opened System

  // --------------------------------------------------------------- sending

  /** Everything is taken out of the ring, `n` bytes leave through the socket,
      and the rest goes back.  `n` is negative when send fails. */
  method SendPending(out: Buffer, n: int) returns (handed: string)
    requires out.Valid() && n <= |out.Contents()|
    modifies out, out.data
    ensures out.Valid() && handed == old(out.Contents())
    ensures out.Contents() == if n < 0 then "" else handed[n..]
  {
    ghost var was := out.Contents();
    var toWrite := out.GetBufferOccupiedSpace();
    var auxiliaryBuffer := new char[toWrite];
    var bytesRead := out.ReadDataFromBuffer(auxiliaryBuffer, toWrite);
    assert was[..toWrite] == was && was[toWrite..] == "";
    handed := auxiliaryBuffer[..];
    assert handed == auxiliaryBuffer[..bytesRead];
    if 0 <= n < toWrite {
      var fatal := out.WriteDataToBuffer(auxiliaryBuffer[n..]);
      assert !fatal;
      assert auxiliaryBuffer[n..] == handed[n..];
      assert "" + handed[n..] == handed[n..];
    }
  }

  method SendApart(client: UserData, users: UserList, n: int, ghost c: Client) returns (handed: string)
    requires client.View() == Some(c) && n <= |c.out|
    modifies client.BufferRepr()
    ensures handed == c.out && client.View() == Some(c.(out := if n < 0 then "" else c.out[n..]))
    ensures users.State() == old(users.State())
  {
    handed := SendPending(client.outputBuff, n);
  }

  /** Back to READING when there is nothing left to write. */
  method Settle(client: UserData, users: UserList, ghost c: Client)
    requires client.View() == Some(c) && c.open
    modifies client`clientState
    ensures client.View() ==
              Some(c.(mode := if c.out == "" && !Available(c.list) && c.running == None then READING else c.mode))
    ensures users.State() == old(users.State())
  {
    var empty := client.outputBuff.IsBufferEmpty();
    var available := AvailableCommands(client.commandList);
    if empty && !available && client.commandState == CommandState.AVAILABLE {
      client.clientState := READING;
    }
  }

  /** writeToClient; `sent` is what the socket is ready to take, negative for an error. */
  method WriteToClient(client: UserData, users: UserList, sent: int, ghost c: Client, ghost u: UserTable)
    returns (handed: string)
    requires client.View() == Some(c) && c.open && users.State() == Some(u)
    modifies client, client.BufferRepr(), users`entries, users.spine
    ensures handed == c.out
    ensures var (d, u1) := WriteOut(c, u, Min(sent, |c.out|)); (client.View(), users.State()) == (Some(d), Some(u1))
  {
    var toWrite := client.outputBuff.GetBufferOccupiedSpace();
    handed := "";
    ghost var d := c;
    if toWrite != 0 {
      var n := Min(sent, toWrite);
      d := c.(out := if n < 0 then "" else c.out[n..]);
      handed := SendApart(client, users, n, c);
      if n < 0 {
        CloseClient(client, users, d, u);
        return;
      }
    }
    Settle(client, users, d);
  }

  // ------------------------------------------------------------- receiving

  /** Parsing does not touch the rest of the slot. */
  method Parse(client: UserData, users: UserList, data: array<char>, ghost c: Client, ghost parsed: Option<seq<Cmd>>)
    returns (overrun: bool)
    requires client.View() == Some(c) && c.open && RecvBuffer(data[..]) && parsed == AddDataTo(c.list, data[..])
    requires data != client.outputBuff.data && data !in client.CacheRepr()
    modifies client.commandList, client.commandList.spine
    ensures overrun <==> parsed == None
    ensures !overrun ==> client.View() == Some(c.(list := parsed.value))
    ensures !overrun ==> users.State() == old(users.State())
  {
    overrun := ParseApart(client.commandList, client.mailCache, client.outputBuff, users, data, c.list);
  }

  method ParseApart(list: CommandList, cache: MailsCache.MailCache?, out: Buffer, users: UserList, data: array<char>,
                    ghost was: seq<Cmd>)
    returns (overrun: bool)
    requires list.Valid() && ListOk(was) && list.Abs() == was && RecvBuffer(data[..])
    modifies list, list.spine
    ensures overrun <==> AddDataTo(was, data[..]) == None
    ensures !overrun ==> list.Valid() && ListOk(list.Abs()) && AddDataTo(was, data[..]) == Some(list.Abs())
    ensures cache != null ==> cache.Valid() == old(cache.Valid())
    ensures cache != null && cache.Valid() ==> cache.Abs() == old(cache.Abs())
    ensures out.Valid() == old(out.Valid())
    ensures out.Valid() ==> out.Contents() == old(out.Contents())
    ensures users.State() == old(users.State())
  {
    overrun := list.AddData(data);
  }

  method SetWriting(client: UserData, users: UserList, ghost c: Client)
    requires client.View() == Some(c)
    modifies client`clientState
    ensures client.View() == Some(c.(mode := WRITING)) && users.State() == old(users.State())
  {
    client.clientState := WRITING;
  }

  method ParseReceived(client: UserData, users: UserList, mem: string, ghost c: Client, ghost parsed: Option<seq<Cmd>>)
    returns (overrun: bool)
    requires client.View() == Some(c) && c.open && RecvBuffer(mem) && parsed == AddDataTo(c.list, mem)
    modifies client.commandList, client.commandList.spine
    ensures overrun <==> parsed == None
    ensures !overrun ==> client.View() == Some(c.(list := parsed.value))
    ensures !overrun ==> users.State() == old(users.State())
  {
    var auxiliaryBuffer := ReceiveBuffer(client, users, mem, c);
    overrun := Parse(client, users, auxiliaryBuffer, c, parsed);
  }

  method TakeIn(client: UserData, users: UserList, mem: string, ghost c: Client) returns (overrun: bool)
    requires client.View() == Some(c) && c.open && RecvBuffer(mem)
    modifies client`clientState, client.commandList, client.commandList.spine
    ensures overrun <==> AddDataTo(c.list, mem) == None
    ensures !overrun ==> users.State() == old(users.State())
    ensures !overrun ==> client.View() == Some(c.(list := AddDataTo(c.list, mem).value, mode := WRITING))
  {
    ghost var parsed := AddDataTo(c.list, mem);
    overrun := ParseReceived(client, users, mem, c, parsed);
    if !overrun {
      SetWriting(client, users, c.(list := parsed.value));
    }
  }

  method ReceiveBuffer(client: UserData, users: UserList, mem: string, ghost c: Client) returns (buffer: array<char>)
    requires client.View() == Some(c) && RecvBuffer(mem)
    ensures fresh(buffer) && buffer[..] == mem && client.View() == Some(c) && users.State() == old(users.State())
    ensures buffer != client.outputBuff.data && buffer !in client.CacheRepr()
  {
    buffer := new char[RECVSIZE](i requires 0 <= i < RECVSIZE => mem[i]);
  }

  /** readFromClient; `received` is the result of recv with the buffer it filled.
      Nothing is said of the objects when parsing leaves that buffer. */
  method ReadFromClient(client: UserData, users: UserList, received: Received, ghost c: Client, ghost u: UserTable)
    returns (overrun: bool)
    requires client.View() == Some(c) && c.open && users.State() == Some(u)
    requires received.Data? ==> RecvBuffer(received.mem)
    modifies client, client.commandList, client.commandList.spine, client.BufferRepr(), users`entries, users.spine
    ensures match ReadIn(c, u, received)
            case None => overrun
            case Some((d, u1)) => !overrun && (client.View(), users.State()) == (Some(d), Some(u1))
  {
    match received
    case RecvError => overrun := false;
    case Eof =>
      CloseClient(client, users, c, u);
      overrun := false;
    case Data(mem) => overrun := TakeIn(client, users, mem, c);
  }

  // -------------------------------------------------------------- one event

  method FillBuffer(client: UserData, users: UserList, store: Store, junk: MailInfo, ghost c: Client,
                    ghost u: UserTable)
    returns (unlinked: seq<string>)
    requires client.View() == Some(c) && users.State() == Some(u) && StoreOk(store) && ClientOk(c) && c.open
    modifies client, client.commandList, client.CacheRepr(), client.BufferRepr(), users`entries, users.spine
    ensures var x := Fill(c, u, store, junk);
            (client.View(), users.State(), unlinked) == (Some(x.client), Some(x.users), x.unlinked)
    ensures users.spine == old(users.spine)
  {
    assert users !in client.CacheRepr() && users !in client.BufferRepr();
    if client.outputBuff.GetBufferFreeSpace() > MAX_SINGLE_LINE_RESPONSE {
      unlinked := ExecuteFirstCommand(client, users, store, junk, c, u);
    } else {
      unlinked := [];
    }
  }

  lemma {:induction false} InvokeKeepsOpen(c: Client, u: UserTable, store: Store, cmd: ToExecute, junk: MailInfo)
    requires ClientOk(c) && c.open && cmd.callback.Some? && Allowed(cmd.callback.value, c.phase)
    requires c.running.Some? ==> cmd == c.running.value
    ensures Invoke(c, u, store, cmd, junk).client.open
  {}

  /** Running a command does not close the slot. */
  lemma {:induction false} FillKeepsOpen(c: Client, u: UserTable, store: Store, junk: MailInfo)
    requires ClientOk(c) && c.open
    ensures Fill(c, u, store, junk).client.open
  {
    if c.running.Some? {
      InvokeKeepsOpen(c, u, store, c.running.value, junk);
    } else if Available(c.list) {
      DequeuedOk(c);
      var cmd := Taken(c.list[0]);
      if cmd.callback.Some? && Allowed(cmd.callback.value, c.phase) {
        InvokeKeepsOpen(c.(list := c.list[1..]), u, store, cmd, junk);
      }
    }
  }

  method ReapClient(client: UserData, users: UserList, ghost c: Client, ghost u: UserTable)
    requires client.View() == Some(c) && users.State() == Some(u) && (c.phase == UPDATE ==> c.open)
    modifies client, client.BufferRepr(), users`entries, users.spine
    ensures (client.View(), users.State()) == (Some(Reap(c, u).0), Some(Reap(c, u).1))
  {
    if client.clientState == READING && client.sessionState == UPDATE {
      CloseClient(client, users, c, u);
    }
  }

  method SendAndReap(client: UserData, users: UserList, sent: int, ghost c: Client, ghost u: UserTable)
    requires client.View() == Some(c) && users.State() == Some(u) && c.open
    modifies client, client.BufferRepr(), users`entries, users.spine
    ensures (client.View(), users.State()) == (Some(SentAndReaped(c, u, sent).0), Some(SentAndReaped(c, u, sent).1))
  {
    var handed := WriteToClient(client, users, sent, c, u);
    ghost var (d, u1) := WriteOut(c, u, Min(sent, |c.out|));
    ReapClient(client, users, d, u1);
  }

  function SentAndReaped(c: Client, u: UserTable, sent: int): (Client, UserTable) {
    var (d, u1) := WriteOut(c, u, Min(sent, |c.out|));
    Reap(d, u1)
  }

  /** A writable slot: fill the buffer, send, and close after a QUIT. */
  method HandleWritable(client: UserData, users: UserList, store: Store, junk: MailInfo, sent: int, ghost c: Client,
                        ghost u: UserTable)
    returns (unlinked: seq<string>)
    requires client.View() == Some(c) && users.State() == Some(u) && StoreOk(store) && ClientOk(c) && c.open
    modifies client, client.commandList, client.CacheRepr(), client.BufferRepr(), users`entries, users.spine
    ensures var x := Fill(c, u, store, junk);
            var (d, u1) := SentAndReaped(x.client, x.users, sent);
            (client.View(), users.State(), unlinked) == (Some(d), Some(u1), x.unlinked)
  {
    FillKeepsOpen(c, u, store, junk);
    ghost var x := Fill(c, u, store, junk);
    unlinked := FillBuffer(client, users, store, junk, c, u);
    SendAndReap(client, users, sent, x.client, x.users);
  }

  lemma {:induction false} ExecuteIsFill(s: Sys, junk: MailInfo)
    requires SysOk(s) && s.client.open
    ensures var x, t := Fill(s.client, s.users, s.store, junk), Execute(s, junk);
            t.client == x.client && t.users == x.users && t.unlinked == s.unlinked + x.unlinked && x.client.open
  {
    FillKeepsOpen(s.client, s.users, s.store, junk);
  }

  lemma {:induction false} SendIsWriteOut(s: Sys, sent: int)
    requires s.client.open
    ensures var (c, u) := SentAndReaped(s.client, s.users, sent);
            var t := ReapSys(SendSys(s, sent));
            t.client == c && t.users == u && t.unlinked == s.unlinked && t.overrun == s.overrun
  {}

  lemma {:induction false} WritableIs(s: Sys, junk: MailInfo, sent: int)
    requires SysOk(s) && !s.overrun && s.client.open && s.client.mode == WRITING
    ensures var x := Fill(s.client, s.users, s.store, junk);
            var (d, u1) := SentAndReaped(x.client, x.users, sent);
            var t := Apply(s, Writable(junk, sent));
            t.client == d && t.users == u1 && t.unlinked == s.unlinked + x.unlinked && !t.overrun
  {
    var s1 := Execute(s, junk);
    ExecuteIsFill(s, junk);
    SendIsWriteOut(s1, sent);
    assert !s1.overrun;
  }

  /** The body of the loop of handleClients.  `s` is a ghost record of the
      connection so far; the objects go through the states of System.Apply,
      so everything proved of its runs holds of them. */
  method HandleClient(client: UserData, users: UserList, store: Store, e: Event, ghost s: Sys)
    returns (unlinked: seq<string>, overrun: bool)
    requires SysOk(s) && !s.overrun && client.View() == Some(s.client) && users.State() == Some(s.users) &&
             store == s.store
    requires EventOk(e) && !e.Environment?
    modifies client, client.ListRepr(), client.CacheRepr(), client.BufferRepr(), users`entries, users.spine
    ensures SysOk(Apply(s, e)) && overrun == Apply(s, e).overrun
    ensures !overrun ==> client.View() == Some(Apply(s, e).client) && users.State() == Some(Apply(s, e).users)
    ensures Apply(s, e).unlinked == s.unlinked + unlinked
  {
    ApplyKeeps(s, e);
    if client.socket == NOT_ALLOCATED {
      return [], false;
    }
    match e
    case Readable(received) =>
      unlinked := [];
      overrun := ReadableEvent(client, users, received, s);
    case Writable(junk, sent) =>
      overrun := false;
      unlinked := WritableEvent(client, users, store, junk, sent, s);
  }

  method ReadableEvent(client: UserData, users: UserList, received: Received, ghost s: Sys) returns (overrun: bool)
    requires SysOk(s) && !s.overrun && client.View() == Some(s.client) && users.State() == Some(s.users) &&
             s.client.open
    requires received.Data? ==> RecvBuffer(received.mem)
    modifies client, client.ListRepr(), client.BufferRepr(), users`entries, users.spine
    ensures var t := Apply(s, Readable(received));
            overrun == t.overrun && t.unlinked == s.unlinked &&
            (!overrun ==> client.View() == Some(t.client) && users.State() == Some(t.users))
  {
    overrun := false;
    if client.clientState == READING {
      overrun := ReadFromClient(client, users, received, s.client, s.users);
    }
  }

  method WritableEvent(client: UserData, users: UserList, store: Store, junk: MailInfo, sent: int, ghost s: Sys)
    returns (unlinked: seq<string>)
    requires SysOk(s) && !s.overrun && client.View() == Some(s.client) && users.State() == Some(s.users)
    requires store == s.store && s.client.open
    modifies client, client.commandList, client.CacheRepr(), client.BufferRepr(), users`entries, users.spine
    ensures var t := Apply(s, Writable(junk, sent));
            client.View() == Some(t.client) && users.State() == Some(t.users) &&
              t.unlinked == s.unlinked + unlinked && !t.overrun
  {
    unlinked := [];
    if client.clientState == WRITING {
      WritableIs(s, junk, sent);
      unlinked := HandleWritable(client, users, store, junk, sent, s.client, s.users);
    }
  }
}
