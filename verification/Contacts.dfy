// The synced_contact table: saveSyncedContact, loadSyncedContact and loadSyncedContactByAci of
// storage/Storage.cpp over the partial unique indexes of storage/schema.sql, and the loop of
// syncStorageContacts in daemon/main.cpp.

module ContactTable {
  import opened Bytes

  type Id = nat

  /** The columns that a save writes; syncedAt is the clock at that moment. */
  datatype Contact = Contact(
    e164: string, aci: string, pni: string, profileKey: seq<Byte>, givenName: string, familyName: string,
    syncedAt: int)

  datatype Row = Row(account: string, contact: Contact)

  /** nextId: AUTOINCREMENT never gives an id twice. */
  datatype Table = Table(rows: map<Id, Row>, nextId: Id)

  /** The two indexes: non-empty keys are unique for each account. */
  predicate Clash(a: Row, b: Row) {
    a.account == b.account &&
    ((a.contact.e164 != "" && a.contact.e164 == b.contact.e164) ||
     (a.contact.aci != "" && a.contact.aci == b.contact.aci))
  }

  predicate UniqueKeys(rows: map<Id, Row>) {
    forall i, j | i in rows && j in rows && i != j :: !Clash(rows[i], rows[j])
  }

  predicate Valid(t: Table) { UniqueKeys(t.rows) && forall i | i in t.rows :: i < t.nextId }

  predicate MatchesE164(r: Row, account: string, e164: string) { r.account == account && r.contact.e164 == e164 }

  predicate MatchesAci(r: Row, account: string, aci: string) { r.account == account && r.contact.aci == aci }

  /** SELECT id ... WHERE account_name = ? AND e164 = ? */
  ghost function FindE164(rows: map<Id, Row>, account: string, e164: string): (r: Option<Id>)
    ensures r.Some? ==> r.value in rows && MatchesE164(rows[r.value], account, e164)
    ensures r == None ==> forall i | i in rows :: !MatchesE164(rows[i], account, e164)
  {
    if exists i :: i in rows && MatchesE164(rows[i], account, e164) then
      (var i :| i in rows && MatchesE164(rows[i], account, e164); Some(i))
    else None
  }

  ghost function FindAci(rows: map<Id, Row>, account: string, aci: string): (r: Option<Id>)
    ensures r.Some? ==> r.value in rows && MatchesAci(rows[r.value], account, aci)
    ensures r == None ==> forall i | i in rows :: !MatchesAci(rows[i], account, aci)
  {
    if exists i :: i in rows && MatchesAci(rows[i], account, aci) then
      (var i :| i in rows && MatchesAci(rows[i], account, aci); Some(i))
    else None
  }

  /** A non-empty key names at most one row. */
  lemma FindUnique(rows: map<Id, Row>, account: string, i: Id)
    requires UniqueKeys(rows) && i in rows
    ensures rows[i].account == account && rows[i].contact.e164 != "" ==>
              FindE164(rows, account, rows[i].contact.e164) == Some(i)
    ensures rows[i].account == account && rows[i].contact.aci != "" ==>
              FindAci(rows, account, rows[i].contact.aci) == Some(i)
  {
    if rows[i].account == account {
      var byE164, byAci := FindE164(rows, account, rows[i].contact.e164), FindAci(rows, account, rows[i].contact.aci);
      assert MatchesE164(rows[i], account, rows[i].contact.e164) && MatchesAci(rows[i], account, rows[i].contact.aci);
      if rows[i].contact.e164 != "" && byE164 != Some(i) {
        assert Clash(rows[i], rows[byE164.value]);
      }
      if rows[i].contact.aci != "" && byAci != Some(i) {
        assert Clash(rows[i], rows[byAci.value]);
      }
    }
  }

  /** The row that a save updates: by e164 if that finds one, otherwise by aci. */
  ghost function Existing(rows: map<Id, Row>, account: string, c: Contact): (r: Option<Id>)
    ensures r.Some? ==> r.value in rows && rows[r.value].account == account
  {
    var byE164 := if c.e164 != "" then FindE164(rows, account, c.e164) else None;
    if byE164 == None && c.aci != "" then FindAci(rows, account, c.aci) else byE164
  }

  /** An UPDATE or INSERT that would violate an index changes nothing and is an error. */
  ghost function Written(t: Table, id: Id, row: Row): Result<Table> {
    var rows := t.rows[id := row];
    if UniqueKeys(rows) then Ok(Table(rows, if id < t.nextId then t.nextId else id + 1)) else Err
  }

  ghost function Saved(t: Table, account: string, c: Contact): Result<Table> {
    match Existing(t.rows, account, c)
    case Some(id) => Written(t, id, Row(account, c))
    case None => Written(t, t.nextId, Row(account, c))
  }

  // What a save promises.

  lemma SavedKeepsValid(t: Table, account: string, c: Contact)
    requires Valid(t)
    ensures Saved(t, account, c).Ok? ==> Valid(Saved(t, account, c).value)
  {
  }

  /** It fails if and only if its two keys name two different rows. */
  lemma SaveFailsIff(t: Table, account: string, c: Contact)
    requires Valid(t)
    ensures Saved(t, account, c).Err? <==>
            c.e164 != "" && c.aci != "" &&
            FindE164(t.rows, account, c.e164).Some? && FindAci(t.rows, account, c.aci).Some? &&
            FindE164(t.rows, account, c.e164) != FindAci(t.rows, account, c.aci)
  {
    var byE164, byAci := FindE164(t.rows, account, c.e164), FindAci(t.rows, account, c.aci);
    var row := Row(account, c);
    var id := match Existing(t.rows, account, c) case Some(i) => i case None => t.nextId;
    var rows := t.rows[id := row];
    if c.e164 != "" && c.aci != "" && byE164.Some? && byAci.Some? && byE164 != byAci {
      assert Clash(rows[id], rows[byAci.value]);
    } else {
      forall j | j in t.rows && j != id ensures !Clash(row, t.rows[j]) {
        NoOther(t, account, c, id, j);
      }
      forall i, j | i in rows && j in rows && i != j ensures !Clash(rows[i], rows[j]) {
        if i == id {
          assert !Clash(row, t.rows[j]);
        } else if j == id {
          assert !Clash(row, t.rows[i]);
        }
      }
    }
  }

  lemma NoOther(t: Table, account: string, c: Contact, id: Id, j: Id)
    requires Valid(t) && j in t.rows && j != id
    requires id == match Existing(t.rows, account, c) case Some(i) => i case None => t.nextId
    requires !(c.e164 != "" && c.aci != "" && FindE164(t.rows, account, c.e164).Some? &&
               FindAci(t.rows, account, c.aci).Some? &&
               FindE164(t.rows, account, c.e164) != FindAci(t.rows, account, c.aci))
    ensures !Clash(Row(account, c), t.rows[j])
  {
    FindUnique(t.rows, account, j);
  }

  /** After a save each non-empty key finds the saved contact. */
  lemma SavedIsFound(t: Table, account: string, c: Contact)
    requires Valid(t) && Saved(t, account, c).Ok?
    ensures var rows := Saved(t, account, c).value.rows;
            (c.e164 != "" ==> FindE164(rows, account, c.e164).Some? &&
                              rows[FindE164(rows, account, c.e164).value].contact == c) &&
            (c.aci != "" ==> FindAci(rows, account, c.aci).Some? &&
                             rows[FindAci(rows, account, c.aci).value].contact == c)
  {
    var id := match Existing(t.rows, account, c) case Some(i) => i case None => t.nextId;
    FindUnique(Saved(t, account, c).value.rows, account, id);
  }

  /** A save writes one row: the one of the same account that it matched, or a new one. */
  lemma SavedChangesOneRow(t: Table, account: string, c: Contact) returns (id: Id)
    requires Valid(t) && Saved(t, account, c).Ok?
    ensures Saved(t, account, c).value.rows == t.rows[id := Row(account, c)]
    ensures id in t.rows ==> t.rows[id].account == account &&
                             ((c.e164 != "" && t.rows[id].contact.e164 == c.e164) ||
                              (c.aci != "" && t.rows[id].contact.aci == c.aci))
  {
    id := match Existing(t.rows, account, c) case Some(i) => i case None => t.nextId;
  }

  /** A row that shares no key with the contact is not touched. */
  lemma UnmatchedUnchanged(t: Table, account: string, c: Contact, i: Id)
    requires Valid(t) && i in t.rows && Saved(t, account, c).Ok? && !Clash(Row(account, c), t.rows[i])
    ensures i in Saved(t, account, c).value.rows && Saved(t, account, c).value.rows[i] == t.rows[i]
  {
    var id := SavedChangesOneRow(t, account, c);
  }

  // A batch.

  /** The loop of syncStorageContacts: a contact without a key is skipped, a failing save too. */
  ghost function Synced(t: Table, account: string, contacts: seq<Contact>): Table {
    if contacts == [] then t
    else
      var s, c := Synced(t, account, contacts[..|contacts| - 1]), contacts[|contacts| - 1];
      if c.e164 == "" && c.aci == "" then s
      else match Saved(s, account, c) case Ok(u) => u case Err => s
  }

  /** A contact without any key changes nothing, wherever it stands in the batch. */
  lemma {:induction false} KeylessSkipped(t: Table, account: string, a: seq<Contact>, c: Contact, b: seq<Contact>)
    requires c.e164 == "" && c.aci == ""
    ensures Synced(t, account, a + [c] + b) == Synced(t, account, a + b)
  {
    assert (a + [c])[..|a|] == a;
    SyncedConcat(t, account, a + [c], b);
    SyncedConcat(t, account, a, b);
  }

  lemma {:induction false} SyncedValid(t: Table, account: string, contacts: seq<Contact>)
    requires Valid(t)
    ensures Valid(Synced(t, account, contacts))
  {
    if contacts != [] {
      var s := Synced(t, account, contacts[..|contacts| - 1]);
      SyncedValid(t, account, contacts[..|contacts| - 1]);
      SavedKeepsValid(s, account, contacts[|contacts| - 1]);
    }
  }

  /** A row that shares no key with any contact of the batch is what it was before the batch. */
  lemma {:induction false} BatchLeavesOthers(t: Table, account: string, contacts: seq<Contact>, i: Id)
    requires Valid(t) && i in t.rows
    requires forall c | c in contacts :: !Clash(Row(account, c), t.rows[i])
    ensures i in Synced(t, account, contacts).rows && Synced(t, account, contacts).rows[i] == t.rows[i]
  {
    if contacts != [] {
      var front, c := contacts[..|contacts| - 1], contacts[|contacts| - 1];
      BatchLeavesOthers(t, account, front, i);
      SyncedValid(t, account, front);
      var s := Synced(t, account, front);
      if Saved(s, account, c).Ok? {
        UnmatchedUnchanged(s, account, c, i);
      }
    }
  }

  /** A contact that is saved in the batch, and whose keys no later contact has, can be looked up after
      it by either key. */
  lemma BatchFinds(t: Table, account: string, before: seq<Contact>, c: Contact, later: seq<Contact>)
    requires Valid(t) && (c.e164 != "" || c.aci != "")
    requires Saved(Synced(t, account, before), account, c).Ok?
    requires forall d | d in later :: !Clash(Row(account, d), Row(account, c))
    ensures var rows := Synced(t, account, before + [c] + later).rows;
            (c.e164 != "" ==> FindE164(rows, account, c.e164).Some? &&
                              rows[FindE164(rows, account, c.e164).value].contact == c) &&
            (c.aci != "" ==> FindAci(rows, account, c.aci).Some? &&
                             rows[FindAci(rows, account, c.aci).value].contact == c)
  {
    var s := Synced(t, account, before);
    SyncedValid(t, account, before);
    SavedKeepsValid(s, account, c);
    var u := Saved(s, account, c).value;
    var id := SavedChangesOneRow(s, account, c);
    assert (before + [c])[..|before|] == before;
    assert Synced(t, account, before + [c]) == u;
    BatchLeavesOthers(u, account, later, id);
    SyncedConcat(t, account, before + [c], later);
    SyncedValid(u, account, later);
    FindUnique(Synced(u, account, later).rows, account, id);
  }

  lemma {:induction false} SyncedConcat(t: Table, account: string, a: seq<Contact>, b: seq<Contact>)
    ensures Synced(t, account, a + b) == Synced(Synced(t, account, a), account, b)
  {
    if b == [] {
      assert a + b == a;
    } else {
      SyncedConcat(t, account, a, b[..|b| - 1]);
      assert (a + b)[..|a + b| - 1] == a + b[..|b| - 1];
    }
  }
}

module Contacts {
  import opened Bytes
  import opened ContactTable

  /** The database that every Storage of the process works on. */
  class Database {
    var rows: map<Id, Row>
    var nextId: Id

    ghost predicate IsValid()
      reads this
    {
      Valid(View())
    }

    function View(): Table
      reads this
    {
      Table(rows, nextId)
    }

    constructor ()
      ensures IsValid() && rows == map[]
    {
      rows, nextId := map[], 0;
    }

    method SelectE164(account: string, e164: string) returns (id: Option<Id>)
      requires IsValid()
      ensures e164 != "" ==> id == FindE164(rows, account, e164)
      ensures id.Some? ==> id.value in rows && MatchesE164(rows[id.value], account, e164)
      ensures id == None ==> forall i | i in rows :: !MatchesE164(rows[i], account, e164)
    {
      id := None;
      if exists i :: i in rows && MatchesE164(rows[i], account, e164) {
        var i :| i in rows && MatchesE164(rows[i], account, e164);
        FindUnique(rows, account, i);
        id := Some(i);
      }
    }

    method SelectAci(account: string, aci: string) returns (id: Option<Id>)
      requires IsValid()
      ensures aci != "" ==> id == FindAci(rows, account, aci)
      ensures id.Some? ==> id.value in rows && MatchesAci(rows[id.value], account, aci)
      ensures id == None ==> forall i | i in rows :: !MatchesAci(rows[i], account, aci)
    {
      id := None;
      if exists i :: i in rows && MatchesAci(rows[i], account, aci) {
        var i :| i in rows && MatchesAci(rows[i], account, aci);
        FindUnique(rows, account, i);
        id := Some(i);
      }
    }

    /** ok is false where the statement throws. */
    method Write(id: Id, row: Row) returns (ok: bool)
      requires IsValid()
      modifies this
      ensures ok <==> Written(old(View()), id, row).Ok?
      ensures View() == if ok then Written(old(View()), id, row).value else old(View())
    {
      if !UniqueKeys(rows[id := row]) {
        return false;
      }
      rows := rows[id := row];
      if id >= nextId {
        nextId := id + 1;
      }
      return true;
    }

    method SaveSyncedContact(account: string, c: Contact) returns (ok: bool)
      requires IsValid()
      modifies this
      ensures IsValid() && (ok <==> Saved(old(View()), account, c).Ok?)
      ensures View() == if ok then Saved(old(View()), account, c).value else old(View())
    {
      SavedKeepsValid(View(), account, c);
      var existing: Option<Id> := None;
      if c.e164 != "" {
        existing := SelectE164(account, c.e164);
      }
      if existing == None && c.aci != "" {
        existing := SelectAci(account, c.aci);
      }
      if existing.Some? {
        ok := Write(existing.value, Row(account, c));
      } else {
        ok := Write(nextId, Row(account, c));
      }
    }

    method LoadSyncedContact(account: string, e164: string) returns (r: Option<Contact>)
      requires IsValid()
      ensures r.Some? ==> exists i :: i in rows && MatchesE164(rows[i], account, e164) && r == Some(rows[i].contact)
      ensures r == None ==> forall i | i in rows :: !MatchesE164(rows[i], account, e164)
      ensures e164 != "" ==>
                r == match FindE164(rows, account, e164) case Some(i) => Some(rows[i].contact) case None => None
    {
      var id := SelectE164(account, e164);
      return if id.Some? then Some(rows[id.value].contact) else None;
    }

    method LoadSyncedContactByAci(account: string, aci: string) returns (r: Option<Contact>)
      requires IsValid()
      ensures r.Some? ==> exists i :: i in rows && MatchesAci(rows[i], account, aci) && r == Some(rows[i].contact)
      ensures r == None ==> forall i | i in rows :: !MatchesAci(rows[i], account, aci)
      ensures aci != "" ==>
                r == match FindAci(rows, account, aci) case Some(i) => Some(rows[i].contact) case None => None
    {
      var id := SelectAci(account, aci);
      return if id.Some? then Some(rows[id.value].contact) else None;
    }

    /** The loop of syncStorageContacts over the contacts that were fetched. */
    method SyncStorageContacts(account: string, contacts: seq<Contact>)
      requires IsValid()
      modifies this
      ensures IsValid() && View() == Synced(old(View()), account, contacts)
    {
      for i := 0 to |contacts|
        invariant IsValid() && View() == Synced(old(View()), account, contacts[..i])
      {
        var c := contacts[i];
        assert contacts[..i + 1][..i] == contacts[..i];
        if !(c.e164 == "" && c.aci == "") {
          var ok := SaveSyncedContact(account, c);
        }
      }
      assert contacts[..|contacts|] == contacts;
    }
  }
}
