// The maildrop object of a logged-in session.

module MailsCache {
  import opened Standards
  import opened ByteStuff
  import opened Maildrop

  class MailCache {
    const mails: array<Mail>
    const charactersProcessor: CharactersProcessor
    var markedToDelete: int
    var currentMail: Option<File>
    var listIterator: nat

    ghost function Repr(): set<object> {
      {this, mails, charactersProcessor, charactersProcessor.buffer}
    }

    ghost predicate Valid()
      reads Repr()
    {
      charactersProcessor.Valid() && CacheOk(Abs())
    }

    ghost function Abs(): Cache
      reads this, mails, charactersProcessor, charactersProcessor.buffer
      requires charactersProcessor.Valid()
    {
      Cache(mails[..], markedToDelete, listIterator, RetrState(currentMail, charactersProcessor.Abs()))
    }

    /** `entries` is what the directory listing found. */
    constructor (entries: seq<Mail>)
      requires |entries| < 0x8000_0000
      requires forall i :: 0 <= i < |entries| ==> !entries[i].toDelete
      ensures Valid() && fresh(Repr())
      ensures Abs() == Cache(entries, 0, 0, RetrState(None, FRESH))
    {
      mails := new Mail[|entries|](i requires 0 <= i < |entries| => entries[i]);
      charactersProcessor := new CharactersProcessor();
      markedToDelete, currentMail, listIterator := 0, None, 0;
      new;
      assert mails[..] == entries;
      NoneMarked(entries);
    }

    predicate IsValidMailNo(mailNo: int)
      reads this, mails
      ensures IsValidMailNo(mailNo) <==> ValidMailNo(mails[..], mailNo)
    {
      mailNo > 0 && mailNo <= mails.Length && !mails[mailNo - 1].toDelete
    }

    // -------------------------------------------------------------- RETR

    method OpenMailFile(mailNo: int) returns (status: ExecutionStatus)
      requires Valid()
      modifies Repr()
      ensures Valid() && mails[..] == old(mails[..])
      ensures (Abs(), status == FINISHED) == old(OpenMail(Abs(), mailNo))
      ensures status == FINISHED || status == FAILED
    {
      if !IsValidMailNo(mailNo) {
        return FAILED;
      }
      var _ := CloseMailFile();
      currentMail := Some(File(mails[mailNo - 1].content, 0, false));
      charactersProcessor.ResetCharactersProcessor();
      return FINISHED;
    }

    method CloseMailFile() returns (status: ExecutionStatus)
      requires Valid()
      modifies this
      ensures Valid()
      ensures Abs() == old(CloseMail(Abs()))
      ensures status == if old(currentMail).Some? then FINISHED else FAILED
    {
      if currentMail.None? {
        return FAILED;
      }
      currentMail := None;
      return FINISHED;
    }

    /** `fread(dest, 1, k, currentMail)` */
    method ReadFile(dest: array<char>, k: nat) returns (n: nat)
      requires currentMail.Some? && currentMail.value.offset <= |currentMail.value.content| && k <= dest.Length
      modifies this`currentMail, dest
      ensures n <= k && currentMail.Some?
      ensures (currentMail.value, dest[..n]) == Fread(old(currentMail).value, k)
    {
      var (f, data) := Fread(currentMail.value, k);
      n := |data|;
      forall i | 0 <= i < n {
        dest[i] := data[i];
      }
      assert dest[..n] == data;
      currentMail := Some(f);
    }

    method GetNCharsFromMail(characters: int, dest: array<char>) returns (status: ExecutionStatus, copied: int)
      requires Valid() && characters < dest.Length && 0 < dest.Length && dest != charactersProcessor.buffer
      modifies Repr(), dest
      ensures Valid() && mails[..] == old(mails[..])
      ensures old(currentMail).None? || characters <= 0 ==>
                status == FAILED && copied == characters && Abs() == old(Abs())
      ensures old(currentMail).Some? && characters > 0 ==>
                0 <= copied <= characters &&
                (Abs(), status, dest[..copied]) ==
                  old(var (r, st, out) := GetNChars(Abs().retr, characters); (Abs().(retr := r), st, out))
    {
      if currentMail.None? || characters <= 0 {
        dest[0] := NUL;
        return FAILED, characters;
      }
      ghost var r0 := Abs().retr;
      var availableChars := charactersProcessor.AvailableCharacters();
      if characters > availableChars {
        var charactersRead := ReadFile(dest, characters - availableChars);
        var added := charactersProcessor.AddCharactersToProcess(dest, charactersRead, currentMail.value.eof);
      }
      assert Abs().retr == Refill(r0, characters);
      copied := charactersProcessor.GetNProcessedCharacters(dest, characters);
      var rest := charactersProcessor.AvailableCharacters();
      if currentMail.value.eof && rest == 0 {
        status := FINISHED;
      } else {
        status := NOT_FINISHED;
      }
      KeepsOk(r0, characters);
    }

    static lemma {:induction false} KeepsOk(r: RetrState, n: nat)
      requires r.current.Some? && RetrOk(r) && 0 < n
      ensures RetrOk(GetNChars(r, n).0)
    {
      GetNWorks(Refill(r, n).stuffer, n);
    }

    // -------------------------------------------------------------- LIST

    method ToBegin()
      requires Valid()
      modifies this`listIterator
      ensures Valid() && Abs() == old(Abs()).(it := 0)
    {
      listIterator := 0;
    }

    predicate HasNext()
      reads this
    {
      listIterator < mails.Length
    }

    /** `found` is false for the FAILED return; then `info` keeps its old value `was`. */
    method Next(was: MailInfo) returns (found: bool, info: MailInfo)
      requires Valid()
      modifies this`listIterator
      ensures Valid()
      ensures old(NextFrom(mails[..], listIterator)) == (listIterator, if found then Some(info) else None)
      ensures Abs() == old(Abs()).(it := listIterator)
      ensures !found ==> info == was
      decreases mails.Length - listIterator
    {
      if !HasNext() {
        return false, was;
      }
      var mail := mails[listIterator];
      listIterator := listIterator + 1;
      if mail.toDelete {
        found, info := Next(was);
      } else {
        found, info := GetMailInfo(listIterator, was);
      }
    }

    method GetMailInfo(mailNo: int, was: MailInfo) returns (found: bool, info: MailInfo)
      requires Valid()
      ensures found <==> ValidMailNo(mails[..], mailNo)
      ensures info == if found then InfoOf(mails[..], mailNo - 1) else was
    {
      if !IsValidMailNo(mailNo) {
        return false, was;
      }
      var mail := mails[mailNo - 1];
      return true, MailInfo(mail.filename, mailNo, mail.size);
    }

    // ------------------------------------------------------------- marks

    method MarkMail(mailNo: int) returns (ok: bool)
      requires Valid()
      modifies this`markedToDelete, mails
      ensures Valid() && (Abs(), ok) == old(MarkMailToDelete(Abs(), mailNo))
    {
      if !IsValidMailNo(mailNo) {
        return false;
      }
      CountAfterMark(mails[..], mailNo);
      mails[mailNo - 1] := mails[mailNo - 1].(toDelete := true);
      markedToDelete := markedToDelete + 1;
      assert mails[..] == Mark(old(mails[..]), mailNo);
      return true;
    }

    method ResetMarks()
      requires Valid()
      modifies this`markedToDelete, mails
      ensures Valid() && Abs() == old(ResetToDelete(Abs()))
    {
      for mailNo := 0 to mails.Length
        invariant forall i :: 0 <= i < mailNo ==> mails[i] == old(mails[i]).(toDelete := false)
        invariant forall i :: mailNo <= i < mails.Length ==> mails[i] == old(mails[i])
      {
        mails[mailNo] := mails[mailNo].(toDelete := false);
      }
      markedToDelete := 0;
      assert mails[..] == UnmarkAll(old(mails[..]));
      CountAfterReset(old(mails[..]));
    }

    /** The names passed to unlink, in order. */
    method DeleteMarkedMails() returns (unlinked: seq<string>)
      requires Valid()
      ensures unlinked == MarkedNames(mails[..])
      ensures AreMarked(unlinked, mails[..]) && |unlinked| == CountMarked(mails[..])
    {
      unlinked := [];
      for mailNo := 0 to mails.Length
        invariant unlinked == MarkedNames(mails[..mailNo])
      {
        assert mails[..mailNo + 1][..mailNo] == mails[..mailNo];
        if mails[mailNo].toDelete {
          unlinked := unlinked + [mails[mailNo].filename];
        }
      }
      assert mails[..mails.Length] == mails[..];
      MarkedNamesAre(mails[..]);
    }

    function AmountOfMails(): (k: int)
      requires Valid()
      reads Repr()
      ensures k == GetAmountOfMails(Abs())
    {
      mails.Length - markedToDelete
    }

    method GetSizeOfMails() returns (size: int)
      requires Valid()
      ensures size == SizeOfMails(mails[..])
    {
      size := 0;
      for i := 0 to mails.Length
        invariant size == SizeOfMails(mails[..i])
      {
        assert mails[..i + 1][..i] == mails[..i];
        if !mails[i].toDelete {
          size := size + mails[i].size;
        }
      }
      assert mails[..mails.Length] == mails[..];
    }
  }
}
