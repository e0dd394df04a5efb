/**
 * The server's state and its handlers: the in-memory user table
 * (`usersDatabase`), the users file, the patient ledger (`labo.json`) and the
 * eight journal files, with the handlers that read and rewrite them.
 */
module Server {
  import opened Json
  import opened Store
  import Auth
  import Journal
  import Intake

  /** Why a handler reports `success: false`. */
  datatype Failure =
    | UnknownJournalType // `Type de journal inconnu`
    | NotAList           // the stored JSON is not an array, so `unshift`/`push` throws
    | NotIterable        // `servicesSelectionnes` is truthy but not iterable
    | NullService        // a selected service is `null`, so `service.value` throws
    | WriteFailed        // `fs.writeFile` rejects

  datatype Outcome = Done | Failed(reason: Failure)

  class CsrServer {
    var users: seq<Value>
    var usersFile: Stored
    var ledger: Stored
    var journals: map<Journal.Kind, Stored>

    /** The state at start-up: an empty user table and the files as found on disk. */
    constructor (usersFile: Stored, ledger: Stored, journals: map<Journal.Kind, Stored>)
      ensures this.users == []
      ensures this.usersFile == usersFile && this.ledger == ledger && this.journals == journals
    {
      this.users := [];
      this.usersFile := usersFile;
      this.ledger := ledger;
      this.journals := journals;
    }

    /** A journal file that was never written reads as missing. */
    function JournalFile(k: Journal.Kind): Stored
      reads this
    {
      if k in journals then journals[k] else Absent
    }

    /**
     * `FORCE_INITIALIZE_USERS`: write the default table to the users file and
     * install it; a failed write throws and changes nothing.
     */
    method ForceInitializeUsers(writeOk: bool) returns (ok: bool)
      modifies this
      ensures ok == writeOk
      ensures ok ==> users == Auth.DefaultUsers() && usersFile == Written(Auth.DefaultUsers())
      ensures !ok ==> users == old(users) && usersFile == old(usersFile)
      ensures ledger == old(ledger) && journals == old(journals)
    {
      ok := writeOk;
      if ok {
        users := Auth.DefaultUsers();
        usersFile := Written(users);
      }
    }

    /**
     * `loadUsersDatabase`: keep the file's table when it is a non-empty array,
     * otherwise fall back to the defaults. It fails only when the defaults
     * cannot be written, in which case the server exits.
     */
    method LoadUsersDatabase(writeOk: bool) returns (ok: bool)
      modifies this
      ensures ok <==> Auth.IsUserTable(old(usersFile)) || writeOk
      ensures ok ==> users == Auth.LoadedUsers(old(usersFile)) && |users| > 0
      ensures usersFile == if ok && !Auth.IsUserTable(old(usersFile)) then Written(Auth.DefaultUsers()) else old(usersFile)
      ensures !ok && old(usersFile).Parsed? && old(usersFile).value.Arr? ==> users == old(usersFile).value.items
      ensures !ok && !(old(usersFile).Parsed? && old(usersFile).value.Arr?) ==> users == old(users)
      ensures ledger == old(ledger) && journals == old(journals)
    {
      match usersFile
      case Parsed(v) =>
        // The parsed value is installed before it is checked.
        if v.Arr? {
          users := v.items;
        }
        if v.Arr? && |v.items| > 0 {
          ok := true;
        } else {
          ok := ForceInitializeUsers(writeOk);
          if !ok {
            // The handler's catch block tries once more; the write fails again.
            ok := ForceInitializeUsers(writeOk);
          }
        }
      case _ =>
        ok := ForceInitializeUsers(writeOk);
        if !ok {
          ok := ForceInitializeUsers(writeOk);
        }
    }

    /**
     * The `add_to_journal` handler: pick the journal, load it, put the new
     * entry first and rewrite the file.
     */
    method AddToJournal(request: Journal.Request, millis: nat, timestamp: string, writeOk: bool) returns (outcome: Outcome)
      modifies this
      ensures users == old(users) && usersFile == old(usersFile) && ledger == old(ledger)
      ensures Journal.KindOf(request.journalType).None? ==>
        outcome == Failed(UnknownJournalType) && journals == old(journals)
      ensures forall k :: Journal.KindOf(request.journalType) == Some(k) ==>
        var stored := AsList(old(JournalFile(k)));
        var entry := Obj(Journal.NewEntry(request.entry, k, millis, timestamp));
        && (stored.None? ==> outcome == Failed(NotAList) && journals == old(journals))
        && (stored.Some? && !writeOk ==> outcome == Failed(WriteFailed) && journals == old(journals))
        && (stored.Some? && writeOk ==> outcome == Done && journals == old(journals)[k := Written([entry] + stored.value)])
    {
      var kind := Journal.KindOf(request.journalType);
      if kind.None? {
        return Failed(UnknownJournalType);
      }
      var k := kind.value;
      var stored := AsList(JournalFile(k));
      if stored.None? {
        return Failed(NotAList);
      }
      var entries := [Obj(Journal.NewEntry(request.entry, k, millis, timestamp))] + stored.value;
      if !writeOk {
        return Failed(WriteFailed);
      }
      journals := journals[k := Written(entries)];
      outcome := Done;
    }

    /**
     * The `labo` handler: append the patient to the ledger, rewrite it, then
     * emit one `add_to_journal` request per selected service. The requests go
     * back to the client; they do not touch the journals here.
     */
    method RegisterPatient(patient: map<string, Value>, dateCreation: string, writeOk: bool)
      returns (outcome: Outcome, emitted: seq<Journal.Request>)
      modifies this
      ensures users == old(users) && usersFile == old(usersFile) && journals == old(journals)
      ensures AsList(old(ledger)).None? ==>
        outcome == Failed(NotAList) && emitted == [] && ledger == old(ledger)
      ensures AsList(old(ledger)).Some? && !writeOk ==>
        outcome == Failed(WriteFailed) && emitted == [] && ledger == old(ledger)
      ensures AsList(old(ledger)).Some? && writeOk ==>
        && ledger == Written(AsList(old(ledger)).value + [Intake.LedgerRecord(patient, dateCreation)])
        && var services := Intake.SelectedServices(Field(Obj(patient), "servicesSelectionnes"));
        && (services.None? ==> outcome == Failed(NotIterable) && emitted == [])
        && (services.Some? ==> emitted == Intake.Emitted(patient, services.value))
        && (services.Some? && Null !in services.value ==> outcome == Done)
        && (services.Some? && Null in services.value ==> outcome == Failed(NullService))
    {
      emitted := [];
      var stored := AsList(ledger);
      if stored.None? {
        return Failed(NotAList), emitted;
      }
      var patients := stored.value + [Intake.LedgerRecord(patient, dateCreation)];
      if !writeOk {
        return Failed(WriteFailed), emitted;
      }
      ledger := Written(patients);

      var selection := Intake.SelectedServices(Field(Obj(patient), "servicesSelectionnes"));
      if selection.None? {
        return Failed(NotIterable), emitted;
      }
      var complete;
      complete, emitted := Intake.FanOut(patient, selection.value);
      outcome := if complete then Done else Failed(NullService);
    }

    /**
     * The `/api/test-journal` route: pick the journal with the laboratory as
     * default, put a test entry first and rewrite the file. On success it
     * reports the journal's file name and its new length.
     */
    method TestJournal(journalType: Option<Value>, timestamp: string, writeOk: bool)
      returns (outcome: Outcome, fileName: string, count: nat)
      modifies this
      ensures users == old(users) && usersFile == old(usersFile) && ledger == old(ledger)
      ensures var t := Journal.TestType(journalType);
        var k := Journal.TestKind(t);
        var stored := AsList(old(JournalFile(k)));
        && (stored.None? ==> outcome == Failed(NotAList) && journals == old(journals))
        && (stored.Some? && !writeOk ==> outcome == Failed(WriteFailed) && journals == old(journals))
        && (stored.Some? && writeOk ==>
              && outcome == Done
              && journals == old(journals)[k := Written([Obj(Journal.TestEntry(t, timestamp))] + stored.value)]
              && fileName == Journal.FileName(k)
              && count == |stored.value| + 1)
    {
      fileName, count := "", 0;
      var t := Journal.TestType(journalType);
      var k := Journal.TestKind(t);
      var stored := AsList(JournalFile(k));
      if stored.None? {
        return Failed(NotAList), fileName, count;
      }
      var entries := [Obj(Journal.TestEntry(t, timestamp))] + stored.value;
      if !writeOk {
        return Failed(WriteFailed), fileName, count;
      }
      journals := journals[k := Written(entries)];
      outcome, fileName, count := Done, Journal.FileName(k), |entries|;
    }
  }
}
