// A connection slot of the server: the object behind ClientModel.Client, with
// the partial send, the receive and the wiping of a closed slot.

module Clients {
  import opened Standards
  import opened CircularBuffer
  import opened Commands
  import opened CommandSyntax
  import opened CommandParser
  import opened MailsCache
  import opened Users
  import opened Session
  import opened ClientModel

  const NOT_ALLOCATED := -1

  datatype CommandState = AVAILABLE | PROCESSING

  class UserData {
    const outputBuff: Buffer
    var commandList: CommandList?
    var sessionState: PopState
    var clientState: Mode
    var socket: int
    var username: string
    var currentCommand: Option<ToExecute>
    var commandState: CommandState
    var mailCache: MailCache?

    ghost function ListRepr(): set<object>
      reads this, commandList
    {
      if commandList == null then {}
      else
        var list: object := commandList;
        {list} + (set n: object | n in commandList.spine)
    }

    ghost function CacheRepr(): set<object>
      reads this
    {
      if mailCache == null then {} else mailCache.Repr()
    }

    ghost function BufferRepr(): set<object> {
      {outputBuff, outputBuff.data}
    }

    ghost function Repr(): set<object>
      reads this, commandList
    {
      {this} + BufferRepr() + ListRepr() + CacheRepr()
    }

    /** The parts are well formed and do not share memory. */
    ghost predicate Shape()
      reads this, commandList, Repr()
    {
      outputBuff.Valid() && outputBuff.data !in CacheRepr() &&
      (commandList != null ==> commandList.Valid() && ListOk(commandList.Abs())) &&
      (mailCache != null ==> mailCache.Valid()) &&
      (commandState == PROCESSING ==> currentCommand.Some?) &&
      (socket != NOT_ALLOCATED ==> commandList != null)
    }

    ghost function Abs(): Client
      requires Shape()
      reads this, commandList, Repr()
    {
      Client(if commandList == null then [] else commandList.Abs(), outputBuff.Contents(), sessionState, clientState,
             socket != NOT_ALLOCATED, username, if commandState == PROCESSING then currentCommand else None,
             if mailCache == null then None else Some(mailCache.Abs()))
    }

    /** The slot as a value; nothing when its parts are not well formed. */
    ghost function View(): Option<Client>
      reads this, commandList, Repr()
    {
      if Shape() then Some(Abs()) else None
    }

    ghost predicate Valid()
      reads this, commandList, Repr()
    {
      Shape() && ClientOk(Abs())
    }

    /** An unoccupied slot. */
    constructor ()
      ensures View() == Some(CLOSED) && fresh(Repr())
    {
      outputBuff := new Buffer();
      commandList, mailCache, socket := null, null, NOT_ALLOCATED;
      sessionState, clientState, username := ANY, READING, "";
      currentCommand, commandState := None, AVAILABLE;
    }

    /** initClient and the greeting that follows it. */
    method InitClient(sockNum: int)
      requires View() == Some(CLOSED) && sockNum != NOT_ALLOCATED
      modifies this, BufferRepr()
      ensures View() == Some(ACCEPTED) && fresh(Repr() - old(Repr()))
    {
      socket := sockNum;
      sessionState := AUTHENTICATION;
      clientState := WRITING;
      commandList := new CommandList();
      var fatal := outputBuff.WriteDataToBuffer(GREETING);
      assert !fatal;
      assert "" + GREETING == GREETING;
    }

    /** `memset` of the slot, and the mark that it is free. */
    method Wipe()
      requires Shape()
      modifies this, BufferRepr()
      ensures View() == Some(CLOSED) && Repr() <= old(Repr())
    {
      commandList, mailCache := null, null;
      outputBuff.Clear();
      sessionState, clientState, username := ANY, READING, "";
      currentCommand, commandState := None, AVAILABLE;
      socket := NOT_ALLOCATED;
    }
  }

  /** The user table shares nothing with a command list or a maildrop. */
  method ToggleApart(list: CommandList?, cache: MailCache?, users: UserList, name: string, connected: bool)
    requires users.Valid()
    modifies users`entries, users.spine
    ensures users.State() == old(Some(Toggle(users.Table(), name, connected)))
    ensures list != null ==> list.Valid() == old(list.Valid()) && list.Abs() == old(list.Abs())
    ensures cache != null ==> cache.Valid() == old(cache.Valid())
    ensures cache != null && cache.Valid() ==> cache.Abs() == old(cache.Abs())
  {
    users.ToggleUserConnected(name, connected);
  }

  /** Nor with a slot.  Here and below `c` is the slot's value before the call. */
  method MarkConnected(client: UserData, users: UserList, name: string, connected: bool, ghost c: Client,
                       ghost u: UserTable)
    requires client.View() == Some(c) && users.State() == Some(u)
    modifies users`entries, users.spine
    ensures client.View() == Some(c) && users.State() == Some(Toggle(u, name, connected))
  {
    ToggleApart(client.commandList, client.mailCache, users, name, connected);
  }

  method WipeApart(client: UserData, users: UserList, ghost c: Client)
    requires client.View() == Some(c)
    modifies client, client.BufferRepr()
    ensures client.View() == Some(CLOSED)
    ensures users.State() == old(users.State())
  {
    client.Wipe();
  }

  /** closeClient */
  method CloseClient(client: UserData, users: UserList, ghost c: Client, ghost u: UserTable)
    requires client.View() == Some(c) && c.open && users.State() == Some(u)
    modifies client, client.BufferRepr(), users`entries, users.spine
    ensures (client.View(), users.State()) == (Some(Close(c, u).0), Some(Close(c, u).1))
  {
    MarkConnected(client, users, client.username, false, c, u);
    WipeApart(client, users, c);
  }
}
