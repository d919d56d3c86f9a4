// What the replies say to a client that only knows the protocol, and that such
// a client can tell them apart.

module Replies {
  import opened Standards
  import opened Stuffing
  import opened Reading
  import opened Maildrop
  import opened Commands
  import opened CommandSyntax
  import opened LineSyntax
  import opened Users
  import opened Session
  import opened Listings
  import opened ClientModel
  import opened Invocation
  import opened System
  import opened EndToEnd

  // ------------------------------------------------------- when it is +OK

  /** The commands that are answered with several lines if they succeed. */
  predicate AsksLines(cmd: ToExecute) {
    cmd.callback == Some(RETR) || cmd.callback == Some(CAPA) || (cmd.callback == Some(LIST) && cmd.arg1 == "")
  }

  /** What the protocol asks of a command that is to succeed. */
  predicate Succeeds(s: Session, r: Request)
    requires SessionOk(s)
  {
    match r.cmd.callback
    case None => false
    case Some(USER) => s.phase == AUTHENTICATION
    case Some(PASS) =>
      s.phase == AUTHENTICATION && ValidPassword(r.users, s.username, r.cmd.arg1) && !IsConnected(r.users, s.username)
    case Some(QUIT) => true
    case Some(CAPA) => true
    case Some(STAT) => s.phase == TRANSACTION
    case Some(NOOP) => s.phase == TRANSACTION
    case Some(RSET) => s.phase == TRANSACTION
    case Some(DELE) => s.phase == TRANSACTION && ValidMailNo(s.box.value, Atoi(r.cmd.arg1))
    case Some(RETR) => s.phase == TRANSACTION && ValidMailNo(s.box.value, Atoi(r.cmd.arg1))
    case Some(LIST) =>
      s.phase == TRANSACTION && (r.cmd.arg1 == "" || ValidMailNo(s.box.value, Atoi(r.cmd.arg1)))
  }

  /** What is said of a command that does not succeed. */
  function Complaint(s: Session, r: Request): string
    requires SessionOk(s)
  {
    match r.cmd.callback
    case None => "-ERR Invalid command\r\n"
    case Some(v) =>
      if s.phase == TRANSACTION && (v == RETR || v == DELE) then "-ERR That email doesn't seem to exist\r\n"
      else if s.phase == TRANSACTION && v == LIST then "-ERR That message doesn't seem to exist\r\n"
      else if s.phase == AUTHENTICATION && v == PASS then
        if ValidPassword(r.users, s.username, r.cmd.arg1) then "-ERR This user is already connected\r\n"
        else "-ERR Authentication failed\r\n"
      else "-ERR Invalid state\r\n"
  }

  /** What a client is told by one response. */
  ghost predicate Says(s: Session, r: Request, x: Response)
    requires SessionOk(s)
  {
    (if Succeeds(s, r) then SaysYes(x.status) else SaysNo(x.status) && x.status == Complaint(s, r)) &&
    (x.message.Some? <==> Succeeds(s, r) && AsksLines(r.cmd)) &&
    (Succeeds(s, r) ==> SaysMore(s, r, x))
  }

  /** The two numbers of STAT: how many lines LIST has, and their sizes added up. */
  ghost predicate CountsAll(mails: seq<Mail>, status: string) {
    exists lines :: TellsAll(mails, lines) &&
      Number(AfterBlank(status)) == |lines| && Number(AfterBlank(AfterBlank(status))) == Total(lines)
  }

  /** The numbers, lines and mails in it. */
  ghost predicate SaysMore(s: Session, r: Request, x: Response)
    requires SessionOk(s) && Succeeds(s, r)
  {
    match r.cmd.callback
    case Some(STAT) => CountsAll(s.box.value, x.status)
    case Some(LIST) =>
      if r.cmd.arg1 != "" then
        TellsOf(s.box.value, AfterBlank(x.status)) && Atoi(AfterBlank(x.status)) == Atoi(r.cmd.arg1)
      else
        x.message.Some? && TellsAll(s.box.value, Lines(x.message.value)) &&
        Number(AfterBlank(AfterBlank(AfterBlank(x.status)))) == |Lines(x.message.value)|
    case Some(RETR) =>
      var content := s.box.value[Atoi(r.cmd.arg1) - 1].content;
      x.message == Some(content + "\r\n") <==> ClientSafe(true, true, false, content)
    case Some(CAPA) => x.message == Some("USER\r\nPIPELINING\r\n")
    case _ => true
  }

  /** A client reads exactly this response, and nothing is left over. */
  ghost predicate ReadAs(multi: bool, reply: string, x: Response) { ReadOne(multi, reply) == Some(Split(x, "")) }

  lemma {:induction false} LineSays(s: Session, r: Request, l: string) returns (x: Response)
    requires SessionOk(s) && if Succeeds(s, r) then SaysYes(l) else SaysNo(l) && l == Complaint(s, r)
    requires Succeeds(s, r) ==> !AsksLines(r.cmd) && r.cmd.callback != Some(STAT) && r.cmd.callback != Some(LIST)
    ensures ReadAs(AsksLines(r.cmd), l, x) && Says(s, r, x)
  {
    x := Response(l, None);
    LineResponse(AsksLines(r.cmd), l);
  }

  lemma {:induction false} RefusedTexts()
    ensures SaysNo(INVALIDCOMMAND) && SaysNo(INVALIDSTATE) && SaysNo(AUTHFAILED)
  {}

  lemma {:induction false} ConnectedText()
    ensures SaysNo(ALREADYCONNECTED)
  {}

  lemma {:induction false} MissingTexts()
    ensures SaysNo(NOSUCHMAIL) && SaysNo(NOSUCHMESSAGE)
  {}

  lemma {:induction false} LoginTexts()
    ensures SaysYes(USERRECEIVED) && SaysYes(WELCOME) && SaysYes(NOOPREPLY) && SaysYes(EXITING)
  {}

  lemma {:induction false} MarkTexts()
    ensures SaysYes(MARKED) && SaysYes(UNMARKED)
  {}

  lemma {:induction false} OtherTexts()
    ensures SaysYes(GREETING) && SaysYes(RETRFOLLOWS)
  {}

  lemma {:induction false} Refused(s: Session, r: Request)
    requires SessionOk(s) && !Succeeds(s, r)
    ensures Respond(s, r).reply == Complaint(s, r)
  {}

  lemma {:induction false} ComplaintSaysNo(s: Session, r: Request)
    requires SessionOk(s)
    ensures SaysNo(Complaint(s, r))
  {
    RefusedTexts();
    ConnectedText();
    MissingTexts();
  }

  lemma {:induction false} RefusalSays(s: Session, r: Request) returns (x: Response)
    requires SessionOk(s) && !Succeeds(s, r)
    ensures ReadAs(AsksLines(r.cmd), Respond(s, r).reply, x) && Says(s, r, x)
  {
    Refused(s, r);
    ComplaintSaysNo(s, r);
    x := LineSays(s, r, Respond(s, r).reply);
  }

  predicate IsPlain(v: Verb) { v != STAT && v != LIST && v != RETR && v != CAPA }

  lemma {:induction false} Granted(s: Session, r: Request)
    requires SessionOk(s) && Succeeds(s, r) && IsPlain(r.cmd.callback.value)
    ensures Respond(s, r).reply in {USERRECEIVED, WELCOME, NOOPREPLY, EXITING, MARKED, UNMARKED}
  {}

  lemma {:induction false} PlainSays(s: Session, r: Request) returns (x: Response)
    requires SessionOk(s) && Succeeds(s, r) && IsPlain(r.cmd.callback.value)
    ensures ReadAs(AsksLines(r.cmd), Respond(s, r).reply, x) && Says(s, r, x)
  {
    LoginTexts();
    MarkTexts();
    Granted(s, r);
    x := LineSays(s, r, Respond(s, r).reply);
  }

  lemma {:induction false} StatCounts(mails: seq<Mail>)
    requires |mails| < 0x8000_0000
    ensures var t := StatText(|Listing(mails, 0)|, SumSizes(Listing(mails, 0))); SaysYes(t) && CountsAll(mails, t)
  {
    StatRead(mails);
    ListRead(mails);
    assert TellsAll(mails, EntryLines(Listing(mails, 0)));
  }

  lemma {:induction false} StatReply(s: Session, r: Request) returns (t: string)
    requires SessionOk(s) && Succeeds(s, r) && r.cmd.callback == Some(STAT)
    ensures Respond(s, r).reply == t && SaysYes(t) && CountsAll(s.box.value, t)
  {
    StatCounts(s.box.value);
    t := StatText(|Listing(s.box.value, 0)|, SumSizes(Listing(s.box.value, 0)));
  }

  lemma {:induction false} StatSays(s: Session, r: Request) returns (x: Response)
    requires SessionOk(s) && Succeeds(s, r) && r.cmd.callback == Some(STAT)
    ensures ReadAs(AsksLines(r.cmd), Respond(s, r).reply, x) && Says(s, r, x)
  {
    var t := StatReply(s, r);
    x := Response(t, None);
    LineResponse(false, t);
  }

  lemma {:induction false} YesBefore(l: string, t: string)
    requires IsLine(l) && t == "+OK " + l
    ensures SaysYes(t) && AfterBlank(t) == l
  {
    assert t == "+OK" + (" " + l);
    BlankBehind("+OK", l);
  }

  lemma {:induction false} EntryTold(mails: seq<Mail>, n: int, l: string, t: string)
    requires |mails| < 0x8000_0000 && ValidMailNo(mails, n) && l == ListLine(InfoOf(mails, n - 1)) && t == "+OK " + l
    ensures SaysYes(t) && AfterBlank(t) == l && TellsOf(mails, l) && Atoi(l) == n
  {
    ListLineRead(InfoOf(mails, n - 1));
    YesBefore(l, t);
  }

  lemma {:induction false} EntryReply(s: Session, r: Request, n: int, l: string)
    requires SessionOk(s) && Succeeds(s, r) && r.cmd.callback == Some(LIST) && r.cmd.arg1 != ""
    requires n == Atoi(r.cmd.arg1) && l == ListLine(InfoOf(s.box.value, n - 1))
    ensures Respond(s, r).reply == "+OK " + l
  {}

  lemma {:induction false} EntrySays(s: Session, r: Request) returns (x: Response)
    requires SessionOk(s) && Succeeds(s, r) && r.cmd.callback == Some(LIST) && r.cmd.arg1 != ""
    ensures ReadAs(AsksLines(r.cmd), Respond(s, r).reply, x) && Says(s, r, x)
  {
    var mails, n := s.box.value, Atoi(r.cmd.arg1);
    var l := ListLine(InfoOf(mails, n - 1));
    EntryReply(s, r, n, l);
    x := Response("+OK " + l, None);
    EntryTold(mails, n, l, x.status);
    LineResponse(false, x.status);
  }

  lemma {:induction false} ListSays(s: Session, r: Request) returns (x: Response)
    requires SessionOk(s) && Succeeds(s, r) && r.cmd.callback == Some(LIST) && r.cmd.arg1 == ""
    ensures ReadAs(AsksLines(r.cmd), Respond(s, r).reply, x) && Says(s, r, x)
  {
    ListRead(s.box.value);
    x := ReadOne(true, Respond(s, r).reply).value.first;
  }

  lemma {:induction false} RetrRead(content: string) returns (x: Response)
    ensures ReadAs(true, RetrReply(content), x) && x.status == RETRFOLLOWS && x.message.Some?
    ensures x.message == Some(content + "\r\n") <==> ClientSafe(true, true, false, content)
  {
    var body := Stuff(content) + TERMINATOR;
    ReadsToEnd(true, true, false, content);
    ClientRecovers(content);
    OtherTexts();
    x := Response(RETRFOLLOWS, Some(ClientMessage(content).value.text));
    MessageResponse(RETRFOLLOWS, body, x.message.value);
    assert RetrReply(content) == RETRFOLLOWS + body;
  }

  lemma {:induction false} RetrSays(s: Session, r: Request) returns (x: Response)
    requires SessionOk(s) && Succeeds(s, r) && r.cmd.callback == Some(RETR)
    ensures ReadAs(AsksLines(r.cmd), Respond(s, r).reply, x) && Says(s, r, x)
  {
    OtherTexts();
    x := RetrRead(s.box.value[Atoi(r.cmd.arg1) - 1].content);
  }

  lemma {:induction false} CapaText()
    ensures SaysYes("+OK Capability list follows\r\n")
    ensures CAPABILITIES == "+OK Capability list follows\r\n" + ("USER\r\n" + ("PIPELINING\r\n" + LISTEND))
  {}

  lemma {:induction false} CapaLines()
    ensures ClientReads(true, false, "USER\r\n" + ("PIPELINING\r\n" + LISTEND)) ==
            Some(Message("USER\r\nPIPELINING\r\n", ""))
  {
    EndLine();
    LineRead("PIPELINING\r\n", LISTEND);
    LineRead("USER\r\n", "PIPELINING\r\n" + LISTEND);
    assert "USER\r\n" + ("PIPELINING\r\n" + "") == "USER\r\nPIPELINING\r\n";
  }

  lemma {:induction false} CapaRead() returns (x: Response)
    ensures ReadAs(true, CAPABILITIES, x) && SaysYes(x.status) && x.message == Some("USER\r\nPIPELINING\r\n")
  {
    CapaText();
    CapaLines();
    x := Response("+OK Capability list follows\r\n", Some("USER\r\nPIPELINING\r\n"));
    MessageResponse(x.status, "USER\r\n" + ("PIPELINING\r\n" + LISTEND), x.message.value);
  }

  lemma {:induction false} CapaSays(s: Session, r: Request) returns (x: Response)
    requires SessionOk(s) && r.cmd.callback == Some(CAPA)
    ensures ReadAs(AsksLines(r.cmd), Respond(s, r).reply, x) && Says(s, r, x)
  {
    x := CapaRead();
    CapaReply(s, r);
  }

  lemma {:induction false} CapaReply(s: Session, r: Request)
    requires SessionOk(s) && r.cmd.callback == Some(CAPA)
    ensures Respond(s, r).reply == CAPABILITIES
  {}

  /** The reply law: `+OK` exactly if the command succeeds, `-ERR` exactly if
      not, one response, and in it what was asked for. */
  lemma {:induction false} ReplySays(s: Session, r: Request) returns (x: Response)
    requires SessionOk(s)
    ensures ReadAs(AsksLines(r.cmd), Respond(s, r).reply, x) && Says(s, r, x)
  {
    if !Succeeds(s, r) {
      x := RefusalSays(s, r);
    } else {
      match r.cmd.callback.value
      case STAT => x := StatSays(s, r);
      case LIST =>
        if r.cmd.arg1 == "" { x := ListSays(s, r); } else { x := EntrySays(s, r); }
      case RETR => x := RetrSays(s, r);
      case CAPA => x := CapaSays(s, r);
      case _ => x := PlainSays(s, r);
    }
  }

  lemma {:induction false} WholeLine(multi: bool, reply: string, x: Response)
    requires ReadAs(multi, reply, x) && x.message == None
    ensures reply == x.status
  {
    FirstLineBegins(reply);
  }

  lemma {:induction false} StatusFirst(multi: bool, reply: string, x: Response)
    requires ReadAs(multi, reply, x)
    ensures x.status == FirstLine(reply)
  {}

  /** Framing: a response of one line has its only CRLF at its end; one of
      several lines has the end marker, behind its status line, only there. */
  lemma {:induction false} Framed(s: Session, r: Request)
    requires SessionOk(s)
    ensures var reply := Respond(s, r).reply;
            if Succeeds(s, r) && AsksLines(r.cmd) then
              var status := FirstLine(reply);
              IsLine(status) && forall p :: |status| - 2 <= p ==> (MarkerAt(reply, p) <==> p == |reply| - 5)
            else IsLine(reply)
  {
    var reply := Respond(s, r).reply;
    var x := ReplySays(s, r);
    StatusFirst(AsksLines(r.cmd), reply, x);
    if x.message == None {
      WholeLine(AsksLines(r.cmd), reply, x);
    } else {
      EndsAtMarker(reply, x);
    }
  }

  // ------------------------------------------------------------ the effect

  /** The mark of mail `i` after the command. */
  predicate MarkAfter(s: Session, r: Request, i: nat)
    requires SessionOk(s) && s.box.Some? && i < |s.box.value|
  {
    if s.phase == TRANSACTION && r.cmd.callback == Some(DELE) && Atoi(r.cmd.arg1) == i + 1 then true
    else if s.phase == TRANSACTION && r.cmd.callback == Some(RSET) then false
    else s.box.value[i].toDelete
  }

  predicate LogsIn(s: Session, r: Request)
    requires SessionOk(s)
  {
    r.cmd.callback == Some(PASS) && Succeeds(s, r)
  }

  /** What a command does to session, table and files, beside its reply. */
  lemma {:induction false} RespondDoes(s: Session, r: Request)
    requires SessionOk(s)
    ensures var o := Respond(s, r);
            o.session.phase == (if LogsIn(s, r) then TRANSACTION
                                else if r.cmd.callback == Some(QUIT) then UPDATE
                                else s.phase)
    ensures Respond(s, r).session.username ==
            if s.phase == AUTHENTICATION && r.cmd.callback == Some(USER) then r.cmd.arg1 else s.username
    ensures LogsIn(s, r) ==>
              Respond(s, r).session.box == Some(if s.username in r.store then r.store[s.username] else [])
    ensures Respond(s, r).users ==
            if LogsIn(s, r) then r.users[s.username := Account(r.cmd.arg1, true)] else r.users
  {}

  /** Nothing but the marks, and they are as MarkAfter says. */
  ghost predicate MarksAre(s: Session, r: Request, mails: seq<Mail>)
    requires SessionOk(s) && s.box.Some?
  {
    |mails| == |s.box.value| &&
    forall i :: 0 <= i < |mails| ==> mails[i] == s.box.value[i].(toDelete := MarkAfter(s, r, i))
  }

  lemma {:induction false} RespondMarks(s: Session, r: Request)
    requires SessionOk(s) && !LogsIn(s, r)
    ensures match Respond(s, r).session.box
            case None => s.box == None
            case Some(mails) => s.box.Some? && MarksAre(s, r, mails)
  {
    if s.box.Some? {
      BoxAfter(s, r, Respond(s, r).session.box.value);
    }
  }

  lemma {:induction false} BoxAfter(s: Session, r: Request, mails: seq<Mail>)
    requires SessionOk(s) && !LogsIn(s, r) && s.box.Some? && Respond(s, r).session.box == Some(mails)
    ensures MarksAre(s, r, mails)
  {}

  lemma {:induction false} QuitUnlinks(s: Session, r: Request)
    requires SessionOk(s)
    ensures if r.cmd.callback == Some(QUIT) && s.phase == TRANSACTION
            then AreMarked(Respond(s, r).unlinked, s.box.value)
            else Respond(s, r).unlinked == []
  {
    RespondUnlinks(s, r);
    if s.phase == TRANSACTION { MarkedNamesAre(s.box.value); }
  }

  // --------------------------------------------------------- a conversation

  /** What a client asked for, command by command. */
  function Asked(log: seq<Exchange>): (asked: seq<bool>)
    ensures |asked| == |log|
  {
    if log == [] then [] else Asked(log[..|log| - 1]) + [AsksLines(log[|log| - 1].request.cmd)]
  }

  ghost predicate Told(e: Exchange, x: Response) { SessionOk(e.before) && Says(e.before, e.request, x) }

  ghost predicate AllTold(log: seq<Exchange>, l: seq<Response>) {
    |l| == |log| && forall i :: 0 <= i < |log| ==> Told(log[i], l[i])
  }

  lemma {:induction false} ToldMore(log: seq<Exchange>, l: seq<Response>, x: Response)
    requires log != [] && AllTold(log[..|log| - 1], l) && Told(log[|log| - 1], x)
    ensures AllTold(log, l + [x])
  {
    forall i | 0 <= i < |log| ensures Told(log[i], (l + [x])[i]) {
      assert i < |log| - 1 ==> log[..|log| - 1][i] == log[i];
    }
  }

  lemma {:induction false} LastSays(e: Exchange) returns (x: Response)
    requires SessionOk(e.before)
    ensures ReadOne(AsksLines(e.request.cmd), Expected(e).reply) == Some(Split(x, "")) && Told(e, x)
  {
    x := ReplySays(e.before, e.request);
  }

  /** The replies of the reference, one behind the other, come apart again. */
  lemma {:induction false} Splits(log: seq<Exchange>) returns (l: seq<Response>)
    requires Sessions(log)
    ensures ReadAll(Asked(log), Reference(log)) == Some(l) && AllTold(log, l)
    decreases |log|
  {
    if log == [] {
      l := [];
    } else {
      var k := |log| - 1;
      var before := Splits(log[..k]);
      var x := LastSays(log[k]);
      ReadAllMore(Asked(log[..k]), Reference(log[..k]), AsksLines(log[k].request.cmd), Expected(log[k]).reply,
                  before, x);
      ToldMore(log, before, x);
      l := before + [x];
    }
  }

  lemma {:induction false} GreetingFirst(asked: seq<bool>, s: string, l: seq<Response>)
    requires ReadAll(asked, s) == Some(l)
    ensures ReadAll([false] + asked, GREETING + s) == Some([Response(GREETING, None)] + l)
  {
    OtherTexts();
    LineResponse(false, GREETING);
    ReadOneStays(false, GREETING, s);
    assert "" + s == s;
    ReadAllStep(false, asked, GREETING + s, Split(Response(GREETING, None), s), l);
  }

  /** Once a connection waits for input and nothing has gone wrong, a client that
      knows its own commands reads in what was sent the greeting and one response
      for each of them, in order, each saying what it should. */
  lemma {:induction false} ClientSplits(s: Sys) returns (l: seq<Response>)
    requires SysOk(s) && s.client.open && s.client.mode == READING
    requires forall i :: 0 <= i < |s.log| ==> SessionOk(s.log[i].before) && Good(s.log[i])
    ensures ReadAll([false] + Asked(s.log), s.sent) == Some([Response(GREETING, None)] + l)
    ensures AllTold(s.log, l) && SaysYes(GREETING)
  {
    OtherTexts();
    NothingStranded(s);
    AllGood(s.log);
    l := Splits(s.log);
    GreetingFirst(Asked(s.log), Reference(s.log), l);
  }

  /** Whatever lines with at most two spaces were received, in whatever pieces:
      each is carried out as the command it is, or refused if it is none. */
  lemma {:induction false} LinesCarriedOut(s: Sys, texts: seq<string>)
    requires SysOk(s) && s.client.open && s.client.mode == READING
    requires forall i :: 0 <= i < |texts| ==> OneLine(texts[i])
    requires Stream(s.heard) == Wire(texts) && TailsUnseen(s.heard)
    ensures |s.log| == |texts| && Chain(s.log)
    ensures forall i :: 0 <= i < |texts| ==> Means(texts[i], s.log[i].request.cmd)
  {
    NothingStranded(s);
    HeardIsChunks(s.heard);
    AnyLines(texts, Texts(s.heard));
    var got := TakeAll(HeardList(s.heard).value);
    forall i | 0 <= i < |texts| ensures Means(texts[i], s.log[i].request.cmd) { assert got[i] == s.log[i].request.cmd; }
  }
}
