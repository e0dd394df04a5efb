/**
 * The per-service journals: the closed dispatch of `add_to_journal`, the
 * defaulting dispatch of `/api/test-journal`, the entries each one builds,
 * and newest-first insertion.
 */
module Journal {
  import opened Json

  /** The eight services that own a journal file. */
  datatype Kind =
    | Laboratoire | Consultation | Caisse | Chirurgie
    | Echographie | Hospitalisation | Kinesitherapie | Fibroscopie

  /** The `journalType` string that selects a journal. */
  function Name(k: Kind): string {
    match k
    case Laboratoire => "laboratoire"
    case Consultation => "consultation"
    case Caisse => "caisse"
    case Chirurgie => "chirurgie"
    case Echographie => "echographie"
    case Hospitalisation => "hospitalisation"
    case Kinesitherapie => "kinesitherapie"
    case Fibroscopie => "fibroscopie"
  }

  /** The file a journal lives in, under the database directory. */
  function FileName(k: Kind): string {
    "journal_" + Name(k) + ".json"
  }

  /** Distinct journals never share a file. */
  lemma FileNamesDistinct(k: Kind, k': Kind)
    requires k != k'
    ensures FileName(k) != FileName(k')
  {
    assert Name(k) != Name(k');
    assert FileName(k)[8..|FileName(k)| - 5] == Name(k);
    assert FileName(k')[8..|FileName(k')| - 5] == Name(k');
  }

  /**
   * The `switch (data.journalType)` of `add_to_journal`: exactly the eight
   * service names select a journal; anything else, a non-string or a missing
   * type included, is the error `Type de journal inconnu`.
   */
  function KindOf(journalType: Option<Value>): (r: Option<Kind>)
    ensures forall k :: r == Some(k) <==> journalType == Some(Str(Name(k)))
  {
    if journalType.None? || !journalType.value.Str? then None
    else
      var s := journalType.value.s;
      if s == "laboratoire" then Some(Laboratoire)
      else if s == "consultation" then Some(Consultation)
      else if s == "caisse" then Some(Caisse)
      else if s == "chirurgie" then Some(Chirurgie)
      else if s == "echographie" then Some(Echographie)
      else if s == "hospitalisation" then Some(Hospitalisation)
      else if s == "kinesitherapie" then Some(Kinesitherapie)
      else if s == "fibroscopie" then Some(Fibroscopie)
      else None
  }

  /** `journalType || 'laboratoire'` in `/api/test-journal`. */
  function TestType(journalType: Option<Value>): (t: Value)
    ensures Truthy(journalType) ==> t == journalType.value
    ensures !Truthy(journalType) ==> t == Str(Name(Laboratoire))
  {
    if Truthy(journalType) then journalType.value else Str("laboratoire")
  }

  /**
   * The `switch (type)` of `/api/test-journal`: `consultation` and `caisse`
   * select their own journal and every other type falls back to the
   * laboratory journal.
   */
  function TestKind(t: Value): (k: Kind)
    ensures k == Consultation <==> t == Str("consultation")
    ensures k == Caisse <==> t == Str("caisse")
    ensures k == Laboratoire <==> t != Str("consultation") && t != Str("caisse")
  {
    if t == Str("laboratoire") then Laboratoire
    else if t == Str("consultation") then Consultation
    else if t == Str("caisse") then Caisse
    else Laboratoire
  }

  /**
   * The two dispatches agree on the three types the test route knows; for the
   * other five services the test route writes to the laboratory journal.
   */
  lemma TestKindAgreesWithKindOf(k: Kind)
    ensures k in {Laboratoire, Consultation, Caisse} ==> TestKind(Str(Name(k))) == k
    ensures k !in {Laboratoire, Consultation, Caisse} ==> TestKind(Str(Name(k))) == Laboratoire
  {
  }

  /** A journal request as the socket delivers it: `{ journalType, entry }`. */
  datatype Request = Request(journalType: Option<Value>, entry: Option<Value>)

  predicate AllDigits(s: string) {
    forall i :: 0 <= i < |s| ==> '0' <= s[i] <= '9'
  }

  /** The number a string of decimal digits denotes. */
  function DigitsValue(s: string): nat
    requires AllDigits(s)
  {
    if s == [] then 0 else DigitsValue(s[..|s| - 1]) * 10 + (s[|s| - 1] as int - '0' as int)
  }

  /** The decimal digits of `n`, as in a template string. */
  function Decimal(n: nat): (s: string)
    ensures |s| > 0 && AllDigits(s)
    ensures DigitsValue(s) == n
  {
    var d := ['0', '1', '2', '3', '4', '5', '6', '7', '8', '9'][n % 10];
    if n < 10 then [d] else Decimal(n / 10) + [d]
  }

  /** `JRN_${Date.now()}` */
  function EntryId(millis: nat): string {
    "JRN_" + Decimal(millis)
  }

  /**
   * The entry `add_to_journal` stores: the caller's entry, with `id`,
   * `timestamp` and `journalType` always set by the server.
   */
  function NewEntry(entry: Option<Value>, k: Kind, millis: nat, timestamp: string): (e: map<string, Value>)
    ensures e.Keys == Spread(entry).Keys + {"id", "timestamp", "journalType"}
    ensures e["id"] == Str(EntryId(millis))
    ensures e["timestamp"] == Str(timestamp)
    ensures e["journalType"] == Str(Name(k))
    ensures forall key :: key in Spread(entry) && key !in {"id", "timestamp", "journalType"} ==> e[key] == Spread(entry)[key]
  {
    Spread(entry)["id" := Str(EntryId(millis))]["timestamp" := Str(timestamp)]["journalType" := Str(Name(k))]
  }

  /** The entry `/api/test-journal` stores. */
  function TestEntry(t: Value, timestamp: string): map<string, Value> {
    map["test" := Bool(true), "message" := Str("Test API"), "timestamp" := Str(timestamp), "journalType" := t]
  }

  /** The journal after `unshift`ing each of `entries` in turn. */
  function PrependAll(journal: seq<Value>, entries: seq<Value>): seq<Value>
    decreases |entries|
  {
    if entries == [] then journal else PrependAll([entries[0]] + journal, entries[1..])
  }

  function Reversed(s: seq<Value>): (r: seq<Value>)
    ensures |r| == |s|
  {
    if s == [] then [] else Reversed(s[1..]) + [s[0]]
  }

  /**
   * Successive journal writes keep every entry: the newest comes first, the
   * earlier ones follow in reverse order of arrival, and the previous journal
   * follows them unchanged. There is no cap on the length.
   */
  lemma {:induction false} PrependAllKeepsEverything(journal: seq<Value>, entries: seq<Value>)
    ensures PrependAll(journal, entries) == Reversed(entries) + journal
    decreases |entries|
  {
    if entries != [] {
      PrependAllKeepsEverything([entries[0]] + journal, entries[1..]);
      assert Reversed(entries) == Reversed(entries[1..]) + [entries[0]];
    }
  }

  /**
   * One more write after a run of writes puts its entry in front of the
   * journal those writes left: the single-write step `[entry] + list` of the
   * handler chains into any run of writes.
   */
  lemma PrependAllStep(journal: seq<Value>, entries: seq<Value>, entry: Value)
    ensures PrependAll(journal, entries + [entry]) == [entry] + PrependAll(journal, entries)
  {
    PrependAllKeepsEverything(journal, entries + [entry]);
    PrependAllKeepsEverything(journal, entries);
    ReversedSnoc(entries, entry);
  }

  lemma {:induction false} ReversedSnoc(s: seq<Value>, x: Value)
    ensures Reversed(s + [x]) == [x] + Reversed(s)
  {
    if s != [] {
      assert (s + [x])[1..] == s[1..] + [x];
      ReversedSnoc(s[1..], x);
    }
  }
}
