/** The store as the program keeps it: a dictionary of record objects that are updated in place. */
module RefreshTokenObjects {
  import opened Wrappers
  import opened RefreshTokens

  class RefreshTokenRecord {
    const familyId: string
    const subject: string
    const clientId: string
    const bindingMeta: Meta
    const issuedAt: int
    const expiresAt: int
    var usedAt: Option<int>
    var revoked: bool

    function Fields(): Record
      reads this
    {
      Record(familyId, subject, clientId, bindingMeta, issuedAt, expiresAt, usedAt, revoked)
    }

    constructor (familyId: string, subject: string, clientId: string, bindingMeta: Meta, issuedAt: int, expiresAt: int)
      ensures Fields() == Record(familyId, subject, clientId, bindingMeta, issuedAt, expiresAt, None, false)
    {
      this.familyId := familyId;
      this.subject := subject;
      this.clientId := clientId;
      this.bindingMeta := bindingMeta;
      this.issuedAt := issuedAt;
      this.expiresAt := expiresAt;
      usedAt := None;
      revoked := false;
    }
  }

  class RefreshTokenStore {
    const hash: Hash
    var records: map<string, RefreshTokenRecord>

    /** No record object is kept under two hashes. */
    ghost predicate Valid()
      reads this
    {
      forall j, k | j in records && k in records && j != k :: records[j] != records[k]
    }

    ghost function Contents(): (s: Store)
      reads this, records.Values
      ensures s.Keys == records.Keys
    {
      map k | k in records :: records[k].Fields()
    }

    constructor (hash: Hash)
      ensures Valid() && this.hash == hash && Contents() == map[]
    {
      this.hash := hash;
      records := map[];
    }

    method LookupToken(token: string) returns (r: Option<RefreshTokenRecord>)
      ensures r.Some? <==> Lookup(hash, Contents(), token).Some?
      ensures r.Some? ==> hash(token) in records && r.value == records[hash(token)]
    {
      if token == "" || hash(token) !in records {
        return None;
      }
      r := Some(records[hash(token)]);
    }

    method RevokeMembers(familyId: string)
      requires Valid()
      modifies records.Values`revoked
      ensures forall k | k in records ::
                records[k].revoked == (old(records[k].revoked) || records[k].familyId == familyId)
    {
      hide Contents, RefreshTokenRecord.Fields;
      var keys := records.Keys;
      while keys != {}
        invariant keys <= records.Keys
        invariant forall k | k in keys :: records[k].revoked == old(records[k].revoked)
        invariant forall k | k in records && k !in keys ::
                    records[k].revoked == (old(records[k].revoked) || records[k].familyId == familyId)
        decreases |keys|
      {
        var k :| k in keys;
        keys := keys - {k};
        var record := records[k];
        if record.familyId == familyId {
          record.revoked := true;
        }
      }
    }

    method RevokeFamilyOf(record: RefreshTokenRecord)
      requires Valid()
      modifies records.Values`revoked
      ensures Valid() && Contents() == RefreshTokens.RevokeFamily(old(Contents()), record.familyId)
    {
      ghost var before := Contents();
      RevokeMembers(record.familyId);
      ghost var after := Contents();
      assert after.Keys == before.Keys;
      forall k | k in records ensures after[k] == RefreshTokens.RevokeFamily(before, record.familyId)[k] {
        assert records[k].Fields() == before[k].(revoked := records[k].revoked);
      }
    }

    method RevokeFamily(token: string) returns (found: bool)
      requires Valid()
      modifies records.Values
      ensures Valid() && (Contents(), found) == Revoke(hash, old(Contents()), token)
    {
      var record := LookupToken(token);
      if record.None? {
        return false;
      }
      RevokeFamilyOf(record.value);
      found := true;
    }

    method ConsumeToken(token: string, now: int) returns (r: Option<RefreshTokenRecord>)
      requires Valid()
      modifies records.Values
      ensures Valid()
      ensures Contents() == Consume(hash, old(Contents()), token, now).0
      ensures r.Some? <==> Consume(hash, old(Contents()), token, now).1.Some?
      ensures r.Some? ==> hash(token) in records && r.value == records[hash(token)] &&
                          Consume(hash, old(Contents()), token, now).1.value == r.value.Fields()
    {
      var found := LookupToken(token);
      if found.None? {
        return None;
      }
      var record := found.value;
      if record.revoked {
        return None;
      }
      if now >= record.expiresAt {
        record.revoked := true;
        return None;
      }
      if record.usedAt.Some? {
        var _ := RevokeFamily(token);
        return None;
      }
      record.usedAt := Some(now);
      r := Some(record);
    }

    /** `drawn` is the random token value. */
    method InsertToken(subject: string, clientId: string, meta: Meta, expiry: int, familyId: string, now: int, drawn: string)
      requires Valid()
      modifies this
      ensures Valid()
      ensures Contents() == Insert(hash, old(Contents()), subject, clientId, meta, expiry, familyId, now, drawn)
    {
      var record := new RefreshTokenRecord(familyId, subject, clientId, meta, now, expiry);
      records := records[hash(drawn) := record];
    }

    method IssueToken(subject: string, clientId: string, meta: Meta, expiry: int, now: int, drawn: string, drawnFamily: string)
      returns (r: Result<string>)
      requires Valid()
      modifies this
      ensures Valid()
      ensures (Contents(), r) == Issue(hash, old(Contents()), subject, clientId, meta, expiry, now, drawn, drawnFamily)
    {
      if subject == "" || clientId == "" || meta == map[] || expiry <= now {
        return Raise(ValueError);
      }
      InsertToken(subject, clientId, meta, expiry, drawnFamily, now, drawn);
      r := Ok(drawn);
    }

    method RotateToken(token: string, meta: Meta, expiry: int, now: int, drawn: string) returns (r: Result<Option<string>>)
      requires Valid()
      modifies this, records.Values
      ensures Valid()
      ensures (Contents(), r) == Rotate(hash, old(Contents()), token, meta, expiry, now, drawn)
    {
      if meta == map[] {
        return Raise(ValueError);
      }
      var used := ConsumeToken(token, now);
      if used.None? {
        return Ok(None);
      }
      InsertToken(used.value.subject, used.value.clientId, meta, expiry, used.value.familyId, now, drawn);
      r := Ok(Some(drawn));
    }
  }
}
