// The table of POP3 commands and the case-insensitive lookup.

module Commands {
  import opened Standards

  datatype PopState = ANY | AUTHENTICATION | TRANSACTION | UPDATE

  datatype Verb = USER | PASS | STAT | LIST | RETR | DELE | NOOP | RSET | QUIT | CAPA

  const TABLE: seq<Verb> := [USER, PASS, STAT, LIST, RETR, DELE, NOOP, RSET, QUIT, CAPA]

  function Keyword(v: Verb): string {
    match v
    case USER => "USER" case PASS => "PASS" case STAT => "STAT" case LIST => "LIST" case RETR => "RETR"
    case DELE => "DELE" case NOOP => "NOOP" case RSET => "RSET" case QUIT => "QUIT" case CAPA => "CAPA"
  }

  function StateNeeded(v: Verb): PopState {
    match v
    case USER | PASS => AUTHENTICATION
    case QUIT | CAPA => ANY
    case _ => TRANSACTION
  }

  function ToLower(c: char): char {
    if 'A' <= c <= 'Z' then c + ('a' - 'A') else c
  }

  /** `strcasecmp(a, b) == 0` */
  predicate SameIgnoringCase(a: string, b: string) {
    |a| == |b| && forall i :: 0 <= i < |a| ==> ToLower(a[i]) == ToLower(b[i])
  }

  function LookupFrom(i: nat, name: string): Option<Verb>
    requires i <= |TABLE|
    decreases |TABLE| - i
  {
    if i == |TABLE| then None
    else if SameIgnoringCase(Keyword(TABLE[i]), name) then Some(TABLE[i])
    else LookupFrom(i + 1, name)
  }

  function Lookup(name: string): Option<Verb> { LookupFrom(0, name) }

  lemma {:induction false} LookupFromFinds(i: nat, name: string)
    requires i <= |TABLE|
    ensures LookupFrom(i, name).None? <==> forall k :: i <= k < |TABLE| ==> !SameIgnoringCase(Keyword(TABLE[k]), name)
    ensures LookupFrom(i, name).Some? ==> SameIgnoringCase(Keyword(LookupFrom(i, name).value), name)
    decreases |TABLE| - i
  {
    if i < |TABLE| {
      LookupFromFinds(i + 1, name);
      if !SameIgnoringCase(Keyword(TABLE[i]), name) {
        assert LookupFrom(i, name) == LookupFrom(i + 1, name);
      }
    }
  }

  lemma {:induction false} KeywordsDiffer(v: Verb, w: Verb)
    requires v != w
    ensures !SameIgnoringCase(Keyword(v), Keyword(w))
  {
    var a, b := Keyword(v), Keyword(w);
    assert ToLower(a[0]) != ToLower(b[0]) || ToLower(a[1]) != ToLower(b[1]);
  }

  /** The lookup finds a command exactly when the name spells its keyword, in any case. */
  lemma {:induction false} LookupFinds(name: string, v: Verb)
    ensures Lookup(name) == Some(v) <==> SameIgnoringCase(Keyword(v), name)
  {
    LookupFromFinds(0, name);
    assert v in TABLE;
    var k :| 0 <= k < |TABLE| && TABLE[k] == v;
    if Lookup(name).Some? && Lookup(name) != Some(v) && SameIgnoringCase(Keyword(v), name) {
      KeywordsDiffer(v, Lookup(name).value);
      assert false;
    }
  }

  /** The ten names. */
  lemma {:induction false} NamesAre(name: string)
    ensures Lookup(name) == Some(USER) <==> SameIgnoringCase("USER", name)
    ensures Lookup(name) == Some(PASS) <==> SameIgnoringCase("PASS", name)
    ensures Lookup(name) == Some(STAT) <==> SameIgnoringCase("STAT", name)
    ensures Lookup(name) == Some(LIST) <==> SameIgnoringCase("LIST", name)
    ensures Lookup(name) == Some(RETR) <==> SameIgnoringCase("RETR", name)
    ensures Lookup(name) == Some(DELE) <==> SameIgnoringCase("DELE", name)
    ensures Lookup(name) == Some(NOOP) <==> SameIgnoringCase("NOOP", name)
    ensures Lookup(name) == Some(RSET) <==> SameIgnoringCase("RSET", name)
    ensures Lookup(name) == Some(QUIT) <==> SameIgnoringCase("QUIT", name)
    ensures Lookup(name) == Some(CAPA) <==> SameIgnoringCase("CAPA", name)
  {
    forall v: Verb ensures Lookup(name) == Some(v) <==> SameIgnoringCase(Keyword(v), name) { LookupFinds(name, v); }
  }

  method GetCommand(commandName: string) returns (r: Option<Verb>)
    ensures r == Lookup(commandName)
  {
    for i := 0 to |TABLE|
      invariant LookupFrom(i, commandName) == Lookup(commandName)
    {
      if SameIgnoringCase(Keyword(TABLE[i]), commandName) {
        return Some(TABLE[i]);
      }
    }
    return None;
  }
}
