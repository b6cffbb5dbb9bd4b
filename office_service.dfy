/**
 * The office application service: uniqueness checks on code and email before a write, and
 * an audit entry after a write that succeeded. The office table and the audit log are fields
 * of the service. A lookup by code or email that fails is ignored, exactly like a lookup that
 * finds nothing; whether a lookup, a write or the audit call succeeds is a parameter.
 */
module OfficeService {
  import opened Wrappers
  import opened Domain
  import opened Search
  import opened Audit

  datatype OfficeError = CodeExists | EmailExists | NotFound | RepositoryFailed | AuditFailed

  /** The service's own error texts; the others come from gorm and the audit service. */
  function ErrorText(e: OfficeError): string {
    match e
    case CodeExists => "office code already exists"
    case EmailExists => "office email already exists"
    case NotFound => "record not found"
    case RepositoryFailed => "<database error>"
    case AuditFailed => "<audit error>"
  }

  function OfficeCode(o: Office): string { o.code }

  function OfficeEmail(o: Office): string { o.email }

  /** `repo.FindByCode`: index of the first row with that code. */
  function FindByCode(offices: seq<Office>, code: string): Option<nat> {
    First(offices, OfficeCode, code)
  }

  /** `repo.FindByEmail`: index of the first row with that email. */
  function FindByEmail(offices: seq<Office>, email: string): Option<nat> {
    First(offices, OfficeEmail, email)
  }

  /**
   * `existing, _ := s.repo.FindByCode(...)` followed by `existing != nil`: a row with the
   * code is seen only when the lookup itself succeeds.
   */
  function CodeHolder(offices: seq<Office>, code: string, lookupOk: bool): (r: Option<Office>)
    ensures r.Some? <==> lookupOk && exists j :: 0 <= j < |offices| && offices[j].code == code
    ensures r.Some? ==> r.value in offices && r.value.code == code
  {
    if lookupOk && FindByCode(offices, code).Some? then Some(offices[FindByCode(offices, code).value]) else None
  }

  function EmailHolder(offices: seq<Office>, email: string, lookupOk: bool): (r: Option<Office>)
    ensures r.Some? <==> lookupOk && exists j :: 0 <= j < |offices| && offices[j].email == email
    ensures r.Some? ==> r.value in offices && r.value.email == email
  {
    if lookupOk && FindByEmail(offices, email).Some? then Some(offices[FindByEmail(offices, email).value]) else None
  }

  /** The table without the rows with that id (`repo.Delete(id)`). */
  function RemoveOffice(offices: seq<Office>, id: int): (r: seq<Office>)
    ensures forall j :: 0 <= j < |r| ==> r[j].id != id && r[j] in offices
    ensures forall j :: 0 <= j < |offices| && offices[j].id != id ==> offices[j] in r
    ensures |r| <= |offices|
  {
    if offices == [] then []
    else (if offices[0].id == id then [] else [offices[0]]) + RemoveOffice(offices[1..], id)
  }

  /** The `unique` columns: no two offices share a code or an email. */
  predicate DistinctKeys(offices: seq<Office>) {
    forall j, k :: 0 <= j < k < |offices| ==> offices[j].code != offices[k].code && offices[j].email != offices[k].email
  }

  /** A new office whose code and email no row holds keeps the keys distinct. */
  lemma AppendKeepsDistinctKeys(offices: seq<Office>, o: Office)
    requires DistinctKeys(offices)
    requires FindByCode(offices, o.code).None? && FindByEmail(offices, o.email).None?
    ensures DistinctKeys(offices + [o])
  {
    var r := offices + [o];
    forall j, k | 0 <= j < k < |r|
      ensures r[j].code != r[k].code && r[j].email != r[k].email
    {
      if k == |offices| {
        assert r[j] == offices[j];
      } else {
        assert r[j] == offices[j] && r[k] == offices[k];
      }
    }
  }

  /**
   * Writing the non-empty fields of office `o` over its row keeps the keys distinct when
   * the first holder of each of its keys, if any, is that same office.
   */
  lemma ReplaceKeepsDistinctKeys(offices: seq<Office>, i: nat, o: Office)
    requires DistinctKeys(offices) && UniqueOfficeIds(offices)
    requires i < |offices| && offices[i].id == o.id
    requires FindByCode(offices, o.code).None? || offices[FindByCode(offices, o.code).value].id == o.id
    requires FindByEmail(offices, o.email).None? || offices[FindByEmail(offices, o.email).value].id == o.id
    ensures DistinctKeys(offices[i := UpdatesRow(offices[i], o)])
  {
    var m := UpdatesRow(offices[i], o);
    var r := offices[i := m];
    if FindByCode(offices, o.code).Some? {
      var q := FindByCode(offices, o.code).value;
      assert offices[q].id == offices[i].id;
      assert q == i && offices[i].code == o.code;
    }
    if FindByEmail(offices, o.email).Some? {
      var q := FindByEmail(offices, o.email).value;
      assert offices[q].id == offices[i].id;
      assert q == i && offices[i].email == o.email;
    }
    forall j, k | 0 <= j < k < |r|
      ensures r[j].code != r[k].code && r[j].email != r[k].email
    {
      if j == i || k == i {
        var other := if j == i then k else j;
        assert r[other] == offices[other] && other != i;
        assert offices[other].code != offices[i].code && offices[other].email != offices[i].email;
      }
    }
  }

  /** Deleting rows keeps the keys distinct. */
  lemma {:induction false} RemoveKeepsKeys(offices: seq<Office>, id: int)
    requires DistinctKeys(offices)
    ensures DistinctKeys(RemoveOffice(offices, id))
  {
    if offices != [] {
      var rest := RemoveOffice(offices[1..], id);
      assert DistinctKeys(offices[1..]);
      RemoveKeepsKeys(offices[1..], id);
      if offices[0].id != id {
        var r := [offices[0]] + rest;
        forall k | 0 < k < |r|
          ensures r[0].code != r[k].code && r[0].email != r[k].email
        {
          KeysDifferFromHead(offices, rest[k - 1]);
        }
      }
    }
  }

  /** A later row of a table with distinct keys shares no key with the first row. */
  lemma KeysDifferFromHead(offices: seq<Office>, x: Office)
    requires DistinctKeys(offices) && |offices| > 0 && x in offices[1..]
    ensures offices[0].code != x.code && offices[0].email != x.email
  {
    var m :| 0 <= m < |offices[1..]| && offices[1..][m] == x;
    assert offices[m + 1] == x;
  }

  class OfficeService {
    /** The `master_office` table. */
    var offices: seq<Office>
    /** The id the database assigns to the next insert. */
    var nextId: int
    /** The office entries of the audit log, oldest first. */
    var audit: seq<AuditEntry<Office>>

    /** The primary key: ids are unique and below the next one to be assigned. */
    predicate Valid()
      reads this
    {
      UniqueOfficeIds(offices) && forall k :: 0 <= k < |offices| ==> offices[k].id < nextId
    }

    constructor()
      ensures Valid() && offices == [] && audit == []
    {
      offices, nextId, audit := [], 1, [];
    }

    /**
     * `Create`: the code is checked before the email, and either clash writes nothing. The
     * audit entry (old nil, new the office) is written only after the insert succeeded; its
     * failure is the call's error although the office stays created.
     */
    method Create(o: Office, codeLookupOk: bool, emailLookupOk: bool, createOk: bool, auditOk: bool)
      returns (r: Result<Office, OfficeError>)
      requires Valid()
      modifies this
      ensures Valid()
      ensures CodeHolder(old(offices), o.code, codeLookupOk).Some? ==>
                r == Err(CodeExists) && offices == old(offices) && audit == old(audit)
      ensures CodeHolder(old(offices), o.code, codeLookupOk).None? && EmailHolder(old(offices), o.email, emailLookupOk).Some? ==>
                r == Err(EmailExists) && offices == old(offices) && audit == old(audit)
      ensures CodeHolder(old(offices), o.code, codeLookupOk).None? && EmailHolder(old(offices), o.email, emailLookupOk).None? ==>
        if !createOk then r == Err(RepositoryFailed) && offices == old(offices) && audit == old(audit)
        else
          var stored := o.(id := old(nextId));
          offices == old(offices) + [stored]
          && audit == old(audit) + [AuditEntry(stored.id, ActionCreate, None, Some(stored))]
          && r == (if auditOk then Ok(stored) else Err(AuditFailed))
      ensures codeLookupOk && emailLookupOk && DistinctKeys(old(offices)) ==> DistinctKeys(offices)
    {
      var existing := CodeHolder(offices, o.code, codeLookupOk);
      if existing.Some? {
        return Err(CodeExists);
      }
      existing := EmailHolder(offices, o.email, emailLookupOk);
      if existing.Some? {
        return Err(EmailExists);
      }
      if !createOk {
        return Err(RepositoryFailed);
      }
      var stored := o.(id := nextId);
      if codeLookupOk && emailLookupOk && DistinctKeys(offices) {
        AppendKeepsDistinctKeys(offices, stored);
      }
      offices := offices + [stored];
      nextId := nextId + 1;
      audit := audit + [AuditEntry(stored.id, ActionCreate, None, Some(stored))];
      if !auditOk {
        return Err(AuditFailed);
      }
      return Ok(stored);
    }

    /**
     * `Update`: a code or email held by a different office is a clash; one held by the office
     * itself is not. The stored row is then read for the audit's old value: if that read
     * fails, nothing is written. The write is gorm's `Updates(o)`, which keeps every field `o`
     * leaves empty (`UpdatesRow`); the audit entry records the stored row as old and `o`
     * itself, not the merged row, as new.
     */
    method Update(o: Office, codeLookupOk: bool, emailLookupOk: bool, updateOk: bool, auditOk: bool)
      returns (r: Result<Office, OfficeError>)
      requires Valid()
      modifies this
      ensures Valid() && nextId == old(nextId)
      ensures var c := CodeHolder(old(offices), o.code, codeLookupOk);
              c.Some? && c.value.id != o.id ==> r == Err(CodeExists) && offices == old(offices) && audit == old(audit)
      ensures var c := CodeHolder(old(offices), o.code, codeLookupOk);
              var e := EmailHolder(old(offices), o.email, emailLookupOk);
              (c.None? || c.value.id == o.id) && e.Some? && e.value.id != o.id ==>
                r == Err(EmailExists) && offices == old(offices) && audit == old(audit)
      ensures var c := CodeHolder(old(offices), o.code, codeLookupOk);
              var e := EmailHolder(old(offices), o.email, emailLookupOk);
              (c.None? || c.value.id == o.id) && (e.None? || e.value.id == o.id) ==>
        match FindOffice(old(offices), o.id)
        case None => r == Err(NotFound) && offices == old(offices) && audit == old(audit)
        case Some(k) =>
          if !updateOk then r == Err(RepositoryFailed) && offices == old(offices) && audit == old(audit)
          else
            offices == old(offices)[k := UpdatesRow(old(offices)[k], o)]
            && audit == old(audit) + [AuditEntry(o.id, ActionUpdate, Some(old(offices)[k]), Some(o))]
            && r == (if auditOk then Ok(o) else Err(AuditFailed))
      ensures codeLookupOk && emailLookupOk && DistinctKeys(old(offices)) ==> DistinctKeys(offices)
    {
      var existing := CodeHolder(offices, o.code, codeLookupOk);
      if existing.Some? && existing.value.id != o.id {
        return Err(CodeExists);
      }
      existing := EmailHolder(offices, o.email, emailLookupOk);
      if existing.Some? && existing.value.id != o.id {
        return Err(EmailExists);
      }
      var k := FindOffice(offices, o.id);
      if k.None? {
        return Err(NotFound);
      }
      var oldOffice := offices[k.value];
      if !updateOk {
        return Err(RepositoryFailed);
      }
      if codeLookupOk && emailLookupOk && DistinctKeys(offices) {
        ReplaceKeepsDistinctKeys(offices, k.value, o);
      }
      offices := offices[k.value := UpdatesRow(oldOffice, o)];
      audit := audit + [AuditEntry(o.id, ActionUpdate, Some(oldOffice), Some(o))];
      if !auditOk {
        return Err(AuditFailed);
      }
      return Ok(o);
    }

    /**
     * `Delete`: the row is read first for the audit; a failed read deletes and audits
     * nothing. The audit entry (old the office, new nil) follows a delete that succeeded.
     */
    method Delete(id: int, deleteOk: bool, auditOk: bool) returns (r: Result<(), OfficeError>)
      requires Valid()
      modifies this
      ensures Valid() && nextId == old(nextId)
      ensures FindOffice(old(offices), id).None? ==> r == Err(NotFound) && offices == old(offices) && audit == old(audit)
      ensures FindOffice(old(offices), id).Some? && !deleteOk ==>
                r == Err(RepositoryFailed) && offices == old(offices) && audit == old(audit)
      ensures FindOffice(old(offices), id).Some? && deleteOk ==>
        offices == RemoveOffice(old(offices), id)
        && audit == old(audit) + [AuditEntry(id, ActionDelete, Some(old(offices)[FindOffice(old(offices), id).value]), None)]
        && r == (if auditOk then Ok(()) else Err(AuditFailed))
      ensures DistinctKeys(old(offices)) ==> DistinctKeys(offices)
    {
      var k := FindOffice(offices, id);
      if k.None? {
        return Err(NotFound);
      }
      var office := offices[k.value];
      if !deleteOk {
        return Err(RepositoryFailed);
      }
      RemoveKeepsIds(offices, id);
      if DistinctKeys(offices) {
        RemoveKeepsKeys(offices, id);
      }
      offices := RemoveOffice(offices, id);
      audit := audit + [AuditEntry(id, ActionDelete, Some(office), None)];
      if !auditOk {
        return Err(AuditFailed);
      }
      return Ok(());
    }
  }

  /** Deleting rows keeps ids unique. */
  lemma {:induction false} RemoveKeepsIds(offices: seq<Office>, id: int)
    requires UniqueOfficeIds(offices)
    ensures UniqueOfficeIds(RemoveOffice(offices, id))
  {
    if offices != [] {
      var rest := RemoveOffice(offices[1..], id);
      assert UniqueOfficeIds(offices[1..]);
      RemoveKeepsIds(offices[1..], id);
      if offices[0].id != id {
        var r := [offices[0]] + rest;
        forall k | 0 < k < |r|
          ensures r[0].id != r[k].id
        {
          assert r[k] == rest[k - 1];
          var m :| 0 <= m < |offices[1..]| && offices[1..][m] == rest[k - 1];
          assert offices[1..][m] == offices[m + 1];
        }
      }
    }
  }
}
