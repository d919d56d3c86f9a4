// The table of registered users: a singly linked list that behaves as a finite
// map from names to accounts.

module Users {
  import opened Standards

  datatype Account = Account(password: string, connected: bool)

  type UserTable = map<string, Account>

  // -------------------------------------------------- the table as a value

  predicate ValidPassword(u: UserTable, name: string, password: string) {
    name in u && u[name].password == password
  }

  predicate IsConnected(u: UserTable, name: string) { name in u && u[name].connected }

  datatype Admission = BadPassword | Busy | Welcome

  /** What a name and a password are worth. */
  function Admit(u: UserTable, name: string, password: string): Admission {
    if !ValidPassword(u, name, password) then BadPassword
    else if IsConnected(u, name) then Busy
    else Welcome
  }

  function Toggle(u: UserTable, name: string, connected: bool): UserTable {
    if name in u then u[name := u[name].(connected := connected)] else u
  }

  function ModifyPassword(u: UserTable, name: string, password: string): UserTable {
    if name in u then u[name := u[name].(password := password)] else u
  }

  function Insert(u: UserTable, name: string, password: string): UserTable {
    if name in u then u else u[name := Account(password, false)]
  }

  // ------------------------------------------- a list of entries as a table

  datatype Entry = Entry(name: string, account: Account)

  function TableOf(es: seq<Entry>): UserTable {
    if es == [] then map[]
    else TableOf(es[..|es| - 1])[es[|es| - 1].name := es[|es| - 1].account]
  }

  /** No name occurs twice. */
  predicate Distinct(es: seq<Entry>) {
    es == [] || (Distinct(es[..|es| - 1]) && es[|es| - 1].name !in TableOf(es[..|es| - 1]))
  }

  lemma {:induction false} TableSize(es: seq<Entry>)
    requires Distinct(es)
    ensures |TableOf(es)| == |es|
    decreases |es|
  {
    if es != [] { TableSize(es[..|es| - 1]); }
  }

  lemma {:induction false} EntryFound(es: seq<Entry>, i: nat)
    requires Distinct(es) && i < |es|
    ensures es[i].name in TableOf(es) && TableOf(es)[es[i].name] == es[i].account
    decreases |es|
  {
    var k := |es| - 1;
    if i < k {
      assert es[..k][i] == es[i];
      EntryFound(es[..k], i);
    }
  }

  lemma {:induction false} EntryNotFound(es: seq<Entry>, name: string)
    requires forall k :: 0 <= k < |es| ==> es[k].name != name
    ensures name !in TableOf(es)
    decreases |es|
  {
    if es != [] {
      var k := |es| - 1;
      forall j | 0 <= j < k ensures es[..k][j].name != name { assert es[..k][j] == es[j]; }
      EntryNotFound(es[..k], name);
    }
  }

  lemma {:induction false} PasswordNotFound(es: seq<Entry>, name: string, password: string)
    requires forall k :: 0 <= k < |es| ==> !(es[k].name == name && es[k].account.password == password)
    ensures !ValidPassword(TableOf(es), name, password)
    decreases |es|
  {
    if es != [] {
      var k := |es| - 1;
      forall j | 0 <= j < k ensures !(es[..k][j].name == name && es[..k][j].account.password == password) {
        assert es[..k][j] == es[j];
      }
      PasswordNotFound(es[..k], name, password);
    }
  }

  lemma {:induction false} EntriesDiffer(es: seq<Entry>, i: nat, j: nat)
    requires Distinct(es) && i < j < |es|
    ensures es[i].name != es[j].name
    decreases |es|
  {
    var k := |es| - 1;
    assert es[..k][i] == es[i];
    if j == k {
      EntryFound(es[..k], i);
    } else {
      assert es[..k][j] == es[j];
      EntriesDiffer(es[..k], i, j);
    }
  }

  lemma {:induction false} UpdateEntry(es: seq<Entry>, i: nat, a: Account)
    requires Distinct(es) && i < |es|
    ensures var fs := es[i := Entry(es[i].name, a)];
            Distinct(fs) && TableOf(fs) == TableOf(es)[es[i].name := a]
    decreases |es|
  {
    var k := |es| - 1;
    var fs := es[i := Entry(es[i].name, a)];
    if i == k {
      assert fs[..k] == es[..k];
    } else {
      assert es[..k][i] == es[i];
      EntryFound(es[..k], i);
      UpdateEntry(es[..k], i, a);
      assert fs[..k] == es[..k][i := Entry(es[i].name, a)];
    }
  }

  function RemoveAt(es: seq<Entry>, i: nat): seq<Entry>
    requires i < |es|
  {
    es[..i] + es[i + 1..]
  }

  lemma {:induction false} RemoveFromUpdate(m: UserTable, x: string, v: Account, n: string)
    ensures x == n && x !in m ==> m[x := v] - {n} == m
    ensures x != n ==> m[x := v] - {n} == (m - {n})[x := v]
  {}

  lemma {:induction false} RemoveEntry(es: seq<Entry>, i: nat)
    requires Distinct(es) && i < |es|
    ensures Distinct(RemoveAt(es, i)) && TableOf(RemoveAt(es, i)) == TableOf(es) - {es[i].name}
    decreases |es|
  {
    var k := |es| - 1;
    var fs := RemoveAt(es, i);
    RemoveFromUpdate(TableOf(es[..k]), es[k].name, es[k].account, es[i].name);
    if i == k {
      assert fs == es[..k];
    } else {
      RemoveEntry(es[..k], i);
      EntriesDiffer(es, i, k);
      assert es[..k][i] == es[i];
      assert fs[..k - 1] == RemoveAt(es[..k], i) && fs[k - 1] == es[k];
    }
  }

  lemma {:induction false} PrependEntry(e: Entry, es: seq<Entry>)
    requires Distinct(es) && e.name !in TableOf(es)
    ensures Distinct([e] + es) && TableOf([e] + es) == TableOf(es)[e.name := e.account]
    decreases |es|
  {
    var fs := [e] + es;
    if es == [] {
      assert fs[..0] == [] && fs[0] == e;
    } else {
      var k := |es| - 1;
      PrependEntry(e, es[..k]);
      assert fs[..k + 1] == [e] + es[..k] && fs[k + 1] == es[k];
    }
  }

  // ------------------------------------------------------ the linked list

  class UserNode {
    const name: string
    var password: string
    var userConnected: bool
    var next: UserNode?

    function Abs(): Entry
      reads this
    {
      Entry(name, Account(password, userConnected))
    }

    constructor (name: string, password: string, next: UserNode?)
      ensures Abs() == Entry(name, Account(password, false)) && this.next == next
    {
      this.name, this.password, this.userConnected, this.next := name, password, false, next;
    }
  }

  class UserList {
    var head: UserNode?
    var size: nat
    ghost var spine: seq<UserNode>
    ghost var entries: seq<Entry>

    ghost predicate Valid()
      reads this, spine
    {
      Distinct(entries) && size == |entries| && Shows() && Linked()
    }

    ghost predicate Shows()
      reads this, spine
    {
      |entries| == |spine| && forall i :: 0 <= i < |spine| ==> spine[i].Abs() == entries[i]
    }

    /** `spine` is the chain of nodes from `head`. */
    ghost predicate Linked()
      reads this, spine
    {
      (forall i, j :: 0 <= i && j == i + 1 && j < |spine| ==> spine[i].next == spine[j]) &&
      (if spine == [] then head == null else head == spine[0] && spine[|spine| - 1].next == null)
    }

    ghost function Table(): UserTable
      reads this
    {
      TableOf(entries)
    }

    /** The table as a value; nothing when the list is not well formed. */
    ghost function State(): Option<UserTable>
      reads this, spine
    {
      if Valid() then Some(Table()) else None
    }

    constructor ()
      ensures State() == Some(map[]) && spine == []
    {
      head, size, spine, entries := null, 0, [], [];
    }

    /** Position of the node that a traversal has reached. */
    ghost predicate At(node: UserNode?, i: nat)
      reads this
    {
      i <= |spine| && node == if i < |spine| then spine[i] else null
    }

    lemma {:induction false} Advance(node: UserNode, i: nat)
      requires Linked() && At(node, i)
      ensures i < |spine| && At(node.next, i + 1)
    {
      if i + 1 < |spine| { assert spine[i].next == spine[i + 1]; }
    }

    method GetUserNode(username: string) returns (node: UserNode?, ghost i: nat)
      requires Valid()
      ensures node == null <==> username !in Table()
      ensures node != null ==> i < |spine| && node == spine[i] && node.name == username
      ensures node != null ==> Table()[username] == node.Abs().account
    {
      i := 0;
      node := head;
      while node != null
        invariant At(node, i)
        invariant forall k :: 0 <= k < i ==> entries[k].name != username
        decreases |spine| - i
      {
        assert entries[i] == node.Abs();
        if node.name == username {
          EntryFound(entries, i);
          return;
        }
        Advance(node, i);
        node := node.next;
        i := i + 1;
      }
      EntryNotFound(entries, username);
    }

    method UserExists(name: string) returns (r: bool)
      requires Valid()
      ensures r <==> name in Table()
    {
      var node, _ := GetUserNode(name);
      r := node != null;
    }

    method PasswordIsValid(username: string, password: string) returns (found: bool)
      requires Valid()
      ensures found <==> ValidPassword(Table(), username, password)
    {
      found := false;
      var userPtr := head;
      ghost var i := 0;
      while userPtr != null && !found
        invariant At(userPtr, i)
        invariant found ==> ValidPassword(Table(), username, password)
        invariant !found ==> forall k :: 0 <= k < i ==>
                    !(entries[k].name == username && entries[k].account.password == password)
        decreases |spine| - i
      {
        assert entries[i] == userPtr.Abs();
        if userPtr.name == username && userPtr.password == password {
          EntryFound(entries, i);
          found := true;
        }
        Advance(userPtr, i);
        userPtr := userPtr.next;
        i := i + 1;
      }
      if !found { PasswordNotFound(entries, username, password); }
    }

    method UserIsConnected(username: string) returns (r: bool)
      requires Valid()
      ensures r <==> IsConnected(Table(), username)
    {
      var user, i := GetUserNode(username);
      return user != null && user.userConnected;
    }

    method ToggleUserConnected(username: string, connected: bool)
      requires Valid()
      modifies this`entries, spine
      ensures Valid() && Table() == Toggle(old(Table()), username, connected)
    {
      var user, i := GetUserNode(username);
      if user != null {
        WriteNode(user, i, user.password, connected);
      }
    }

    method WriteNode(node: UserNode, ghost i: nat, password: string, connected: bool)
      requires Valid() && i < |spine| && node == spine[i]
      modifies this`entries, node
      ensures Valid() && Table() == old(Table())[node.name := Account(password, connected)]
    {
      ghost var es := entries;
      NodesDistinct();
      node.password, node.userConnected := password, connected;
      entries := es[i := Entry(es[i].name, Account(password, connected))];
      UpdateEntry(es, i, Account(password, connected));
    }

    lemma {:induction false} NodesDistinct()
      requires Distinct(entries) && Shows()
      ensures forall i, j :: 0 <= i < j < |spine| ==> spine[i] != spine[j]
    {
      forall i, j | 0 <= i < j < |spine| ensures spine[i] != spine[j] {
        EntriesDiffer(entries, i, j);
      }
    }

    method ModifyUserPassword(username: string, newPassword: string) returns (modified: bool)
      requires Valid()
      modifies this`entries, spine
      ensures Valid() && (modified <==> username in old(Table()))
      ensures Table() == ModifyPassword(old(Table()), username, newPassword)
    {
      var current := head;
      ghost var i := 0;
      modified := false;
      while !modified && current != null
        invariant At(current, i)
        invariant Valid() && Table() ==
                    if modified then ModifyPassword(old(Table()), username, newPassword) else old(Table())
        invariant modified ==> username in old(Table())
        invariant !modified ==> forall k :: 0 <= k < i ==> entries[k].name != username
        decreases |spine| - i
      {
        assert entries[i] == current.Abs();
        Advance(current, i);
        if current.name == username {
          EntryFound(entries, i);
          WriteNode(current, i, newPassword, current.userConnected);
          modified := true;
        }
        current := current.next;
        i := i + 1;
      }
      if !modified { EntryNotFound(entries, username); }
    }

    /** New users go to the front; an existing name is left alone. */
    method InsertUserNode(name: string, password: string) returns (inserted: bool)
      requires Valid()
      modifies this
      ensures Valid() && (inserted <==> name !in old(Table()))
      ensures Table() == Insert(old(Table()), name, password)
      ensures fresh(set n | n in spine && n !in old(spine))
    {
      var exists_ := UserExists(name);
      if exists_ {
        return false;
      }
      PrependEntry(Entry(name, Account(password, false)), entries);
      LinkFront(name, password);
      size := size + 1;
      return true;
    }

    method LinkFront(name: string, password: string)
      requires Linked() && Shows()
      modifies this`head, this`spine, this`entries
      ensures Linked() && Shows()
      ensures entries == [Entry(name, Account(password, false))] + old(entries)
      ensures fresh(set n | n in spine && n !in old(spine))
    {
      ghost var was := spine;
      var newNode := new UserNode(name, password, head);
      head := newNode;
      spine := [newNode] + was;
      entries := [newNode.Abs()] + entries;
      forall i, j | 0 <= i && j == i + 1 && j < |spine| ensures spine[i].next == spine[j] {
        assert spine[j] == was[i];
        if i > 0 { assert spine[i] == was[i - 1] && was[i - 1].next == was[i]; }
      }
      if was != [] { assert spine[|spine| - 1] == was[|was| - 1]; }
      forall k | 0 <= k < |spine| ensures spine[k].Abs() == entries[k] {
        if k > 0 { assert spine[k] == was[k - 1]; }
      }
    }

    method FindWithPrevious(name: string) returns (prevNode: UserNode?, currentNode: UserNode?, ghost i: nat)
      requires Valid()
      ensures At(currentNode, i) && (currentNode == null <==> name !in Table())
      ensures currentNode != null ==> currentNode.name == name && prevNode == if i == 0 then null else spine[i - 1]
    {
      currentNode, prevNode, i := head, null, 0;
      while currentNode != null
        invariant At(currentNode, i)
        invariant prevNode == if i == 0 then null else spine[i - 1]
        invariant forall k :: 0 <= k < i ==> entries[k].name != name
        decreases |spine| - i
      {
        assert entries[i] == currentNode.Abs();
        if currentNode.name == name {
          EntryFound(entries, i);
          return;
        }
        Advance(currentNode, i);
        prevNode := currentNode;
        currentNode := currentNode.next;
        i := i + 1;
      }
      EntryNotFound(entries, name);
    }

    method DeleteUserNode(name: string)
      requires Valid()
      modifies this, spine
      ensures Valid() && Table() == old(Table()) - {name}
      ensures forall n :: n in spine ==> n in old(spine)
    {
      var prevNode, currentNode, i := FindWithPrevious(name);
      if currentNode != null {
        Advance(currentNode, i);
        Unlink(prevNode, currentNode, i);
      }
    }

    method Unlink(prevNode: UserNode?, currentNode: UserNode, ghost i: nat)
      requires Valid() && i < |spine| && currentNode == spine[i] && At(currentNode.next, i + 1)
      requires prevNode == if i == 0 then null else spine[i - 1]
      modifies this, spine
      ensures Valid() && Table() == old(Table()) - {currentNode.name}
      ensures forall n :: n in spine ==> n in old(spine)
    {
      NodesDistinct();
      assert entries[i] == currentNode.Abs();
      RemoveEntry(entries, i);
      assert |RemoveAt(entries, i)| == |entries| - 1;
      size := size - 1;
      SkipNode(prevNode, currentNode, i);
    }

    method SkipNode(prevNode: UserNode?, currentNode: UserNode, ghost i: nat)
      requires Linked() && Shows() && i < |spine| && currentNode == spine[i] && At(currentNode.next, i + 1)
      requires forall k, j :: 0 <= k < j < |spine| ==> spine[k] != spine[j]
      requires prevNode == if i == 0 then null else spine[i - 1]
      modifies this`head, this`spine, this`entries, if prevNode == null then {} else {prevNode}
      ensures Linked() && Shows()
      ensures entries == RemoveAt(old(entries), i)
      ensures forall n :: n in spine ==> n in old(spine)
    {
      ghost var was := spine;
      if prevNode == null {
        head := currentNode.next;
      } else {
        prevNode.next := currentNode.next;
      }
      spine := was[..i] + was[i + 1..];
      entries := RemoveAt(entries, i);
      forall k, j | 0 <= k && j == k + 1 && j < |spine| ensures spine[k].next == spine[j] {
        if j < i {
          assert was[k] != prevNode && was[k].next == was[j];
        } else if j == i {
          assert spine[k] == prevNode && spine[j] == was[i + 1];
        } else {
          assert was[k + 1].next == was[j + 1];
        }
      }
      forall k | 0 <= k < |spine| ensures spine[k].Abs() == entries[k] {
        assert spine[k] == was[if k < i then k else k + 1];
      }
    }
  }
}
