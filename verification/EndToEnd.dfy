// What the invariant of every run says to a client: replies in order, nothing
// received and complete is left unanswered, pipelined commands are answered as
// by the sequential reference, and files disappear only by QUIT.

module EndToEnd {
  import opened Standards
  import opened Maildrop
  import opened Commands
  import opened CommandSyntax
  import opened CommandParser
  import opened Users
  import opened Session
  import opened ClientModel
  import opened Invocation
  import opened System

  // ------------------------------------------------------------- the output

  /** For every run: the bytes sent, still buffered and lost with a closed slot
      are the greeting and the replies of the commands in the order in which
      they were taken off the queue; only the last may be incomplete; a complete
      one is the reference's reply exactly when it is a good one. */
  lemma {:induction false} OutputInOrder(users: UserTable, store: Store, es: seq<Event>)
    requires StoreOk(store) && EventsOk(es)
    ensures SysOk(Start(users, store)) && SysOk(Run(Start(users, store), es))
    ensures var s := Run(Start(users, store), es);
            s.sent + s.client.out + s.lost == GREETING + Replies(s.log) &&
            |s.client.out| <= BUFFERSIZE && Chain(s.log) &&
            (forall i :: 0 <= i < |s.log| - 1 ==> s.log[i].over) &&
            (forall i :: 0 <= i < |s.log| && s.log[i].over ==> Right(s.log[i]))
  {
    StartOk(users, store);
    RunKeeps(Start(users, store), es);
  }

  /** For every run: no open connection waits for input after its QUIT. */
  lemma {:induction false} QuitNeverWaits(users: UserTable, store: Store, es: seq<Event>)
    requires StoreOk(store) && EventsOk(es)
    ensures SysOk(Start(users, store))
    ensures var c := Run(Start(users, store), es).client; c.open && c.mode == READING ==> c.phase != UPDATE
  {
    StartOk(users, store);
    RunLeavesNone(Start(users, store), es);
  }

  /** A connection that waits for input has sent everything: the greeting and
      one complete reply for every complete line received; what is left of the
      queue is at most one unfinished line. */
  lemma {:induction false} NothingStranded(s: Sys)
    requires SysOk(s) && s.client.open && s.client.mode == READING
    ensures s.sent == GREETING + Replies(s.log)
    ensures |s.client.list| <= 1 && (s.client.list == [] || !Done(s.client.list[0]))
    ensures forall i :: 0 <= i < |s.log| ==> s.log[i].over
    ensures HeardList(s.heard).Some? && TakeAll(HeardList(s.heard).value) == Answered(s.log)
  {
    AllSent(s);
    AllTaken(s);
  }

  lemma {:induction false} AllSent(s: Sys)
    requires SysOk(s) && s.client.open && s.client.mode == READING
    ensures s.sent == GREETING + Replies(s.log)
  {
    assert s.sent + "" + "" == s.sent;
  }

  function Answered(log: seq<Exchange>): (cmds: seq<ToExecute>)
    ensures |cmds| == |log| && forall i :: 0 <= i < |log| ==> cmds[i] == log[i].request.cmd
  {
    seq(|log|, i requires 0 <= i < |log| => log[i].request.cmd)
  }

  lemma {:induction false} AllTaken(s: Sys)
    requires QueueOk(s) && !Available(s.client.list)
    ensures TakeAll(HeardList(s.heard).value) == Answered(s.log)
  {
    TakeAllFront(s.taken, s.client.list);
    assert TakeAll(HeardList(s.heard).value) == Answered(s.log);
  }

  lemma {:induction false} TakeAllFront(front: seq<Cmd>, list: seq<Cmd>)
    requires (forall i :: 0 <= i < |front| ==> Done(front[i])) && !Available(list)
    ensures TakeAll(front + list) == seq(|front|, i requires 0 <= i < |front| => Taken(front[i]))
    decreases |front|
  {
    if front == [] {
      assert front + list == list;
    } else {
      assert (front + list)[1..] == front[1..] + list && (front + list)[0] == front[0];
      TakeAllFront(front[1..], list);
    }
  }

  // ------------------------------------------------------------- pipelining

  function Texts(heard: seq<string>): seq<string>
    requires forall i :: 0 <= i < |heard| ==> RecvBuffer(heard[i])
  {
    if heard == [] then [] else Texts(heard[..|heard| - 1]) + [TextOf(heard[|heard| - 1])]
  }

  lemma {:induction false} ChunksSnoc(list: seq<Cmd>, cs: seq<string>, c: string)
    ensures Chunks(list, cs + [c]) == Chunk(Chunks(list, cs), c)
    decreases |cs|
  {
    if cs == [] {
      assert ([] + [c])[1..] == [] && ([] + [c])[0] == c;
      assert cs + [c] == [c];
      assert Chunks(Chunk(list, c), []) == Chunk(list, c);
    } else {
      assert (cs + [c])[1..] == cs[1..] + [c];
      ChunksSnoc(Chunk(list, cs[0]), cs[1..], c);
    }
  }

  /** No receive ended inside an invalid line with room behind its NUL. */
  predicate TailsUnseen(heard: seq<string>)
    requires forall i :: 0 <= i < |heard| ==> RecvBuffer(heard[i])
  {
    heard == [] ||
    var k := |heard| - 1;
    TailsUnseen(heard[..k]) && TailUnseen(Chunks([], Texts(heard[..k])), TextOf(heard[k]))
  }

  /** Then the list is what the texts received make of it. */
  lemma {:induction false} HeardIsChunks(heard: seq<string>)
    requires (forall i :: 0 <= i < |heard| ==> RecvBuffer(heard[i])) && TailsUnseen(heard)
    ensures HeardList(heard) == Some(Chunks([], Texts(heard)))
    decreases |heard|
  {
    if heard != [] {
      var k := |heard| - 1;
      HeardIsChunks(heard[..k]);
      TailHarmless(Chunks([], Texts(heard[..k])), heard[k]);
      ChunksSnoc([], Texts(heard[..k]), TextOf(heard[k]));
    }
  }

  lemma {:induction false} JoinedSnoc(cs: seq<string>, c: string)
    ensures Joined(cs + [c]) == Joined(cs) + c
    decreases |cs|
  {
    if cs == [] {
      assert cs + [c] == [c] && [c][1..] == [] && c + "" == c && "" + c == c;
    } else {
      assert (cs + [c])[1..] == cs[1..] + [c];
      JoinedSnoc(cs[1..], c);
      assert cs[0] + (Joined(cs[1..]) + c) == cs[0] + Joined(cs[1..]) + c;
    }
  }

  /** What was received so far, as one text. */
  function Stream(heard: seq<string>): string
    requires forall i :: 0 <= i < |heard| ==> RecvBuffer(heard[i])
  {
    Joined(Texts(heard))
  }

  /** The beginning of a stream of rendered commands never ends inside an
      invalid line, so no stale byte is seen. */
  lemma {:induction false} RenderedUnseen(lines: seq<Line>, heard: seq<string>, rest: string)
    requires forall i :: 0 <= i < |lines| ==> WellFormed(lines[i])
    requires forall i :: 0 <= i < |heard| ==> RecvBuffer(heard[i])
    requires Stream(heard) + rest == RenderAll(lines)
    ensures TailsUnseen(heard)
    decreases |heard|
  {
    if heard != [] {
      var k := |heard| - 1;
      var text := TextOf(heard[k]);
      JoinedSnoc(Texts(heard[..k]), text);
      assert Stream(heard[..k]) + (text + rest) == RenderAll(lines);
      RenderedUnseen(lines, heard[..k], text + rest);
      CutOfRendered(lines, Texts(heard), rest);
      ChunksSnoc([], Texts(heard[..k]), text);
    }
  }

  lemma {:induction false} CutOfRendered(lines: seq<Line>, texts: seq<string>, rest: string)
    requires forall i :: 0 <= i < |lines| ==> WellFormed(lines[i])
    requires Joined(texts) + rest == RenderAll(lines)
    ensures !EndsInvalid(Chunks([], texts))
  {
    RenderedSpaces(lines);
    SpacesPrefix(0, Joined(texts), rest);
    SegmentationIndependent(texts);
    LinesStayValid([], lines);
    ValidBefore(ParseState([], false), Joined(texts), rest);
  }

  /** The replies of the sequential reference. */
  function Reference(log: seq<Exchange>): string
    requires Sessions(log)
  {
    if log == [] then "" else Reference(log[..|log| - 1]) + Expected(log[|log| - 1]).reply
  }

  lemma {:induction false} AllGood(log: seq<Exchange>)
    requires Sessions(log)
    requires forall i :: 0 <= i < |log| ==> Right(log[i]) && Good(log[i])
    ensures Replies(log) == Reference(log)
    decreases |log|
  {
    if log != [] {
      var k := |log| - 1;
      forall i | 0 <= i < k ensures Right(log[..k][i]) && Good(log[..k][i]) { assert log[..k][i] == log[i]; }
      AllGood(log[..k]);
    }
  }

  /** Commands rendered one after the other, received in any pieces, answered
      through any partial sends: once the connection waits for input, they have
      all been carried out, in order, each in the session its predecessor left,
      and if none of them was a bad one the client has received the greeting
      and exactly the reference's replies. */
  lemma {:induction false} Pipelined(s: Sys, lines: seq<Line>)
    requires SysOk(s) && s.client.open && s.client.mode == READING
    requires forall i :: 0 <= i < |lines| ==> WellFormed(lines[i])
    requires Stream(s.heard) == RenderAll(lines)
    ensures |s.log| == |lines|
    ensures forall i :: 0 <= i < |lines| ==>
              s.log[i].request.cmd == ToExecute(lines[i].name, Arg(lines[i], 0), Arg(lines[i], 1),
                Lookup(lines[i].name))
    ensures Chain(s.log)
    ensures (forall i :: 0 <= i < |s.log| ==> Good(s.log[i])) ==> s.sent == GREETING + Reference(s.log)
  {
    NothingStranded(s);
    AllCarriedOut(s, lines);
    if forall i :: 0 <= i < |s.log| ==> Good(s.log[i]) {
      AllGood(s.log);
    }
  }

  lemma {:induction false} AllCarriedOut(s: Sys, lines: seq<Line>)
    requires forall i :: 0 <= i < |s.heard| ==> RecvBuffer(s.heard[i])
    requires HeardList(s.heard).Some? && TakeAll(HeardList(s.heard).value) == Answered(s.log)
    requires forall i :: 0 <= i < |lines| ==> WellFormed(lines[i])
    requires Stream(s.heard) == RenderAll(lines)
    ensures |s.log| == |lines|
    ensures forall i :: 0 <= i < |lines| ==>
              s.log[i].request.cmd == ToExecute(lines[i].name, Arg(lines[i], 0), Arg(lines[i], 1),
                Lookup(lines[i].name))
  {
    assert Stream(s.heard) + "" == RenderAll(lines);
    RenderedUnseen(lines, s.heard, "");
    HeardIsChunks(s.heard);
    PipelineRoundTrip(lines, Texts(s.heard));
    var got := TakeAll(HeardList(s.heard).value);
    forall i | 0 <= i < |lines| ensures s.log[i].request.cmd == got[i] {}
  }

  // -------------------------------------------------------------- deletions

  /** The log as a deletion history. */
  ghost function TrailOf(log: seq<Exchange>): (t: Trail)
    requires Chain(log) && forall i :: 0 <= i < |log| ==> StoreOk(log[i].request.store)
    ensures TrailOk(t) && t.session == After(log) && t.unlinked == UnlinkedBy(log)
  {
    if log == [] then
      NewTrailOk();
      NEWTRAIL
    else
      var k := |log| - 1;
      assert forall i :: 0 <= i < k ==> log[..k][i] == log[i];
      var t := TrailOf(log[..k]);
      FollowKeeps(t, log[k].request);
      Follow(t, log[k].request)
  }

  /** For every run, whatever closes the connection: nothing is unlinked unless
      a QUIT was carried out in the TRANSACTION phase, and then exactly the
      mails deleted since the last reset, however many commands came after it. */
  lemma {:induction false} DeletionsOfRun(s: Sys)
    requires SysOk(s)
    ensures var t := TrailOf(s.log);
            if After(s.log).phase == UPDATE && After(s.log).box.Some? then AreDeleted(s.unlinked, t.atLogin, t.ops)
            else s.unlinked == []
    ensures s.client.open ==> After(s.log).phase == s.client.phase
  {
    var t := TrailOf(s.log);
    assert TrailOk(t) && t.unlinked == s.unlinked && t.session == After(s.log);
  }

  /** The only event that unlinks files is a writable one that takes a QUIT off
      the queue of a connection in the TRANSACTION phase, and the files are those
      marked at that moment.  Reading, sending, closing, resuming, and what other
      connections do unlink nothing. */
  lemma {:induction false} OnlyQuitUnlinks(s: Sys, e: Event)
    requires SysOk(s) && EventOk(e) && Apply(s, e).unlinked != s.unlinked
    ensures e.Writable? && s.client.open && s.client.mode == WRITING && s.client.running == None
    ensures Available(s.client.list) && Taken(s.client.list[0]).callback == Some(QUIT) && s.client.phase == TRANSACTION
    ensures s.client.cache.Some? && s.unlinked <= Apply(s, e).unlinked
    ensures AreMarked(Apply(s, e).unlinked[|s.unlinked|..], s.client.cache.value.mails)
  {
    OnlyExecutionUnlinks(s, e);
    ExecuteDoes(s, e.junk);
    var r := Request(Taken(s.client.list[0]), s.users, s.store);
    RespondUnlinks(SessionOf(s.client), r);
    assert s.unlinked + [] == s.unlinked;
    MarkedNamesAre(s.client.cache.value.mails);
    var gone := MarkedNames(s.client.cache.value.mails);
    assert (s.unlinked + gone)[|s.unlinked|..] == gone;
  }

  lemma {:induction false} OnlyExecutionUnlinks(s: Sys, e: Event)
    requires SysOk(s) && EventOk(e) && Apply(s, e).unlinked != s.unlinked
    ensures e.Writable? && s.client.open && s.client.mode == WRITING
    ensures Apply(s, e).unlinked == Execute(s, e.junk).unlinked
  {}

  lemma {:induction false} RespondUnlinks(q: Session, r: Request)
    requires SessionOk(q)
    ensures var gone := Respond(q, r).unlinked;
            gone == if r.cmd.callback == Some(QUIT) && q.phase == TRANSACTION then MarkedNames(q.box.value) else []
  {}
}
