/** The refresh-token store: single use, rotation within a family, and revocation on reuse. */
module RefreshTokens {
  import opened Wrappers

  /** The binding metadata of a record; both entries are texts. */
  type Meta = map<string, string>

  datatype Record = Record(
    familyId: string,
    subject: string,
    clientId: string,
    bindingMeta: Meta,
    issuedAt: int,
    expiresAt: int,
    usedAt: Option<int>,
    revoked: bool)

  /** The records by token hash. */
  type Store = map<string, Record>

  /** The hash of a token value as text; nothing is known about it. */
  type Hash = string -> string

  function Lookup(hash: Hash, s: Store, token: string): Option<Record> {
    if token == "" || hash(token) !in s then None else Some(s[hash(token)])
  }

  function RevokeFamily(s: Store, familyId: string): Store {
    map k | k in s :: if s[k].familyId == familyId then s[k].(revoked := true) else s[k]
  }

  function Expire(hash: Hash, s: Store, token: string): Store
    requires Lookup(hash, s, token).Some?
  {
    s[hash(token) := s[hash(token)].(revoked := true)]
  }

  /** The checks in order: known, not revoked, not expired, not used before. */
  function Consume(hash: Hash, s: Store, token: string, now: int): (Store, Option<Record>) {
    match Lookup(hash, s, token)
    case None => (s, None)
    case Some(r) =>
      if r.revoked then (s, None)
      else if now >= r.expiresAt then (Expire(hash, s, token), None)
      else if r.usedAt.Some? then (RevokeFamily(s, r.familyId), None)
      else
        var used := r.(usedAt := Some(now));
        (s[hash(token) := used], Some(used))
  }

  /** `drawn` is the random token value drawn for the record. */
  function Insert(hash: Hash, s: Store, subject: string, clientId: string, meta: Meta, expiry: int, familyId: string,
                  now: int, drawn: string): Store
  {
    s[hash(drawn) := Record(familyId, subject, clientId, meta, now, expiry, None, false)]
  }

  function Issue(hash: Hash, s: Store, subject: string, clientId: string, meta: Meta, expiry: int, now: int,
                 drawn: string, drawnFamily: string): (Store, Result<string>)
  {
    if subject == "" || clientId == "" || meta == map[] || expiry <= now then (s, Raise(ValueError))
    else (Insert(hash, s, subject, clientId, meta, expiry, drawnFamily, now, drawn), Ok(drawn))
  }

  /** The new record joins the family of the record consumed. */
  function Rotate(hash: Hash, s: Store, token: string, meta: Meta, expiry: int, now: int, drawn: string)
    : (Store, Result<Option<string>>)
  {
    if meta == map[] then (s, Raise(ValueError))
    else
      match Consume(hash, s, token, now)
      case (s1, None) => (s1, Ok(None))
      case (s1, Some(used)) =>
        (Insert(hash, s1, used.subject, used.clientId, meta, expiry, used.familyId, now, drawn), Ok(Some(drawn)))
  }

  function Revoke(hash: Hash, s: Store, token: string): (Store, bool) {
    match Lookup(hash, s, token)
    case None => (s, false)
    case Some(r) => (RevokeFamily(s, r.familyId), true)
  }

  // ---------------------------------------------------------------------------------------------
  // How long a token is good for
  // ---------------------------------------------------------------------------------------------

  /** What the store takes; what it refuses leaves it as it is. */
  lemma IssueIff(hash: Hash, s: Store, subject: string, clientId: string, meta: Meta, expiry: int, now: int, drawn: string,
                 drawnFamily: string)
    ensures var (s', r) := Issue(hash, s, subject, clientId, meta, expiry, now, drawn, drawnFamily);
            if subject != "" && clientId != "" && meta != map[] && now < expiry
            then
              r == Ok(drawn) && s'.Keys == s.Keys + {hash(drawn)} && (forall k | k in s && k != hash(drawn) :: s'[k] == s[k]) &&
              s'[hash(drawn)] == Record(drawnFamily, subject, clientId, meta, now, expiry, None, false)
            else s' == s && r.Raise?
  {
  }

  /** A rotation returns a token exactly when it has metadata and the token presented is accepted; else it does what presenting does. */
  lemma RotateIff(hash: Hash, s: Store, token: string, meta: Meta, expiry: int, now: int, drawn: string)
    ensures var (s', r) := Rotate(hash, s, token, meta, expiry, now, drawn);
            if meta == map[] then s' == s && r.Raise?
            else if Consume(hash, s, token, now).1.Some? then r == Ok(Some(drawn)) && s'.Keys == s.Keys + {hash(drawn)}
            else s' == Consume(hash, s, token, now).0 && r == Ok(None)
  {
    hide RevokeFamily, Expire;
  }

  /** A token just issued is accepted at every time before its expiry, and at none from then on. */
  lemma IssuedIsAcceptedIff(hash: Hash, s: Store, subject: string, clientId: string, meta: Meta, expiry: int, now: int, drawn: string,
                            drawnFamily: string, later: int)
    requires Issue(hash, s, subject, clientId, meta, expiry, now, drawn, drawnFamily).1.Ok? && drawn != ""
    ensures Issue(hash, s, subject, clientId, meta, expiry, now, drawn, drawnFamily).1 == Ok(drawn)
    ensures Consume(hash, Issue(hash, s, subject, clientId, meta, expiry, now, drawn, drawnFamily).0, drawn, later).1.Some? <==>
            later < expiry
  {
  }

  /**
    So is the token that a rotation returns, until the expiry asked for; it stands for the same
    subject, client and family as the token it replaces, which is accepted no more.
  */
  lemma RotatedIsAcceptedIff(hash: Hash, s: Store, token: string, meta: Meta, expiry: int, now: int, drawn: string, later: int)
    requires var r := Rotate(hash, s, token, meta, expiry, now, drawn); r.1.Ok? && r.1.value.Some?
    requires drawn != "" && hash(drawn) != hash(token)
    ensures var (s', r) := Rotate(hash, s, token, meta, expiry, now, drawn);
            r == Ok(Some(drawn)) && Lookup(hash, s, token).Some? &&
            (Consume(hash, s', drawn, later).1.Some? <==> later < expiry) && Consume(hash, s', token, later).1.None? &&
            var was, next := Lookup(hash, s, token).value, Lookup(hash, s', drawn);
            next.Some? && next.value.subject == was.subject && next.value.clientId == was.clientId && next.value.familyId == was.familyId &&
            next.value.bindingMeta == meta && next.value.issuedAt == now
  {
  }

  /** A token is accepted exactly when it is known, neither revoked nor used, and not yet expired. */
  lemma ConsumedIff(hash: Hash, s: Store, token: string, now: int)
    ensures Consume(hash, s, token, now).1.Some? <==>
            token != "" && hash(token) in s && !s[hash(token)].revoked && s[hash(token)].usedAt.None? && now < s[hash(token)].expiresAt
    ensures Consume(hash, s, token, now).1.Some? ==>
              var used := s[hash(token)].(usedAt := Some(now));
              Consume(hash, s, token, now) == (s[hash(token) := used], Some(used))
  {
  }

  /** Revoking a token ends its whole family and no other, and says whether the token was known. */
  lemma RevokeIff(hash: Hash, s: Store, token: string, other: string, now: int)
    ensures Revoke(hash, s, token).1 <==> Lookup(hash, s, token).Some?
    ensures Consume(hash, Revoke(hash, s, token).0, other, now).1.Some? <==>
            Consume(hash, s, other, now).1.Some? &&
            !(Lookup(hash, s, token).Some? && Lookup(hash, s, other).value.familyId == Lookup(hash, s, token).value.familyId)
  {
  }

  // ---------------------------------------------------------------------------------------------
  // Runs
  // ---------------------------------------------------------------------------------------------

  datatype Event =
    | Issues(subject: string, clientId: string, meta: Meta, expiry: int, drawn: string, drawnFamily: string, now: int)
    | Consumes(token: string, now: int)
    | Rotates(token: string, meta: Meta, expiry: int, drawn: string, now: int)
    | Revokes(token: string, now: int)

  /** A token value is fresh when its hash is in no record, a family id when no record has it. */
  predicate FreshToken(hash: Hash, s: Store, token: string) {
    hash(token) !in s
  }

  predicate FreshFamily(s: Store, familyId: string) {
    forall k | k in s :: s[k].familyId != familyId
  }

  /** Random ids are fresh. */
  predicate Enabled(hash: Hash, s: Store, e: Event) {
    match e
    case Issues(_, _, _, _, drawn, drawnFamily, _) => FreshToken(hash, s, drawn) && FreshFamily(s, drawnFamily)
    case Rotates(_, _, _, drawn, _) => FreshToken(hash, s, drawn)
    case _ => true
  }

  function Next(hash: Hash, s: Store, e: Event): Store {
    match e
    case Issues(subject, clientId, meta, expiry, drawn, drawnFamily, now) =>
      Issue(hash, s, subject, clientId, meta, expiry, now, drawn, drawnFamily).0
    case Consumes(token, now) => Consume(hash, s, token, now).0
    case Rotates(token, meta, expiry, drawn, now) => Rotate(hash, s, token, meta, expiry, now, drawn).0
    case Revokes(token, _) => Revoke(hash, s, token).0
  }

  predicate Presents(e: Event, token: string) {
    (e.Consumes? && e.token == token) || (e.Rotates? && e.token == token && e.meta != map[])
  }

  /** The event consumes the token: `consume_token` or `rotate_token` accepts it. */
  predicate Accepts(hash: Hash, s: Store, e: Event, token: string) {
    Presents(e, token) && Consume(hash, s, token, e.now).1.Some?
  }

  /** The event presents a token that was used before, is not revoked and has not expired. */
  predicate DetectsReuse(hash: Hash, s: Store, e: Event, token: string) {
    Presents(e, token) &&
    var r := Lookup(hash, s, token);
    r.Some? && !r.value.revoked && e.now < r.value.expiresAt && r.value.usedAt.Some?
  }

  /** Any interleaving, from the empty store. Nothing is asked of the times: they need not even grow. */
  ghost predicate IsRun(hash: Hash, trace: seq<Store>, events: seq<Event>) {
    |trace| == |events| + 1 && trace[0] == map[] &&
    forall i | 0 <= i < |events| :: Enabled(hash, trace[i], events[i]) && trace[i + 1] == Next(hash, trace[i], events[i])
  }

  // ---------------------------------------------------------------------------------------------
  // Each family has at most one record that can still be used
  // ---------------------------------------------------------------------------------------------

  predicate Live(r: Record) {
    r.usedAt.None? && !r.revoked
  }

  predicate OneLivePerFamily(s: Store) {
    forall j, k | j in s && k in s && Live(s[j]) && Live(s[k]) && s[j].familyId == s[k].familyId :: j == k
  }

  lemma ConsumeKeepsOneLive(hash: Hash, s: Store, token: string, now: int)
    requires OneLivePerFamily(s)
    ensures OneLivePerFamily(Consume(hash, s, token, now).0)
  {
  }

  /** What was consumed leaves its family without a live record, so there is room for the new one. */
  lemma ConsumeLeavesNoneLive(hash: Hash, s: Store, token: string, now: int, k: string)
    requires OneLivePerFamily(s)
    requires var r := Consume(hash, s, token, now);
             r.1.Some? && k in r.0 && r.0[k].familyId == r.1.value.familyId
    ensures !Live(Consume(hash, s, token, now).0[k])
  {
  }

  lemma StepKeepsOneLive(hash: Hash, s: Store, e: Event)
    requires OneLivePerFamily(s) && Enabled(hash, s, e)
    ensures OneLivePerFamily(Next(hash, s, e))
  {
    match e
    case Issues(subject, clientId, meta, expiry, drawn, drawnFamily, now) =>
    case Consumes(token, now) => ConsumeKeepsOneLive(hash, s, token, now);
    case Rotates(token, meta, expiry, drawn, now) =>
      ConsumeKeepsOneLive(hash, s, token, now);
      var (s1, used) := Consume(hash, s, token, now);
      if meta != map[] && used.Some? {
        forall k | k in s1 && s1[k].familyId == used.value.familyId ensures !Live(s1[k]) {
          ConsumeLeavesNoneLive(hash, s, token, now, k);
        }
      }
    case Revokes(token, now) =>
  }

  // ---------------------------------------------------------------------------------------------
  // What no step undoes
  // ---------------------------------------------------------------------------------------------

  /** Records are never removed, never unused again and never unrevoked, and keep their owner and family. */
  ghost predicate Persists(s: Store, s': Store) {
    forall k | k in s ::
      k in s' && s'[k].familyId == s[k].familyId && s'[k].subject == s[k].subject && s'[k].clientId == s[k].clientId &&
      s'[k].bindingMeta == s[k].bindingMeta && s'[k].expiresAt == s[k].expiresAt &&
      (s[k].usedAt.Some? ==> s'[k].usedAt.Some?) && (s[k].revoked ==> s'[k].revoked)
  }

  /** Every record of the family is revoked, and there is one. */
  predicate FamilyDead(s: Store, familyId: string) {
    (exists k :: k in s && s[k].familyId == familyId) && forall k | k in s && s[k].familyId == familyId :: s[k].revoked
  }

  lemma RevokePersists(s: Store, familyId: string)
    ensures Persists(s, RevokeFamily(s, familyId))
  {
  }

  lemma ConsumePersists(hash: Hash, s: Store, token: string, now: int)
    ensures Persists(s, Consume(hash, s, token, now).0)
  {
    hide RevokeFamily;
    if Lookup(hash, s, token).Some? {
      RevokePersists(s, s[hash(token)].familyId);
    }
  }

  lemma StepPersists(hash: Hash, s: Store, e: Event)
    requires Enabled(hash, s, e)
    ensures Persists(s, Next(hash, s, e))
  {
    if e.Consumes? || e.Rotates? {
      ConsumePersists(hash, s, e.token, e.now);
      hide Consume;
      if e.Rotates? {
        ConsumeKeepsKeys(hash, s, e.token, e.now);
      }
    }
  }

  lemma ConsumeKeepsKeys(hash: Hash, s: Store, token: string, now: int)
    ensures Consume(hash, s, token, now).0.Keys == s.Keys
  {
  }

  /** A dead family stays dead: nothing in it is accepted, so nothing joins it. */
  lemma StepKeepsDead(hash: Hash, s: Store, e: Event, familyId: string)
    requires Enabled(hash, s, e) && FamilyDead(s, familyId)
    ensures FamilyDead(Next(hash, s, e), familyId)
  {
    StepPersists(hash, s, e);
    var k :| k in s && s[k].familyId == familyId;
    assert k in Next(hash, s, e) && Next(hash, s, e)[k].familyId == familyId;
  }

  lemma AcceptUses(hash: Hash, s: Store, e: Event, token: string)
    requires Enabled(hash, s, e) && Accepts(hash, s, e, token)
    ensures hash(token) in s && s[hash(token)].usedAt.None? && !s[hash(token)].revoked
    ensures hash(token) in Next(hash, s, e) && Next(hash, s, e)[hash(token)].usedAt.Some?
  {
  }

  lemma ReuseKills(hash: Hash, s: Store, e: Event, token: string)
    requires Enabled(hash, s, e) && DetectsReuse(hash, s, e, token)
    ensures FamilyDead(Next(hash, s, e), s[hash(token)].familyId)
  {
    var k := hash(token);
    assert Next(hash, s, e)[k].familyId == s[k].familyId;
  }

  lemma {:induction false} RunPersists(hash: Hash, trace: seq<Store>, events: seq<Event>, i: nat, j: nat)
    requires IsRun(hash, trace, events) && i <= j < |trace|
    ensures Persists(trace[i], trace[j])
    decreases j
  {
    hide Next, Enabled;
    if i < j {
      RunPersists(hash, trace, events, i, j - 1);
      StepPersists(hash, trace[j - 1], events[j - 1]);
      assert trace[j - 1 + 1] == Next(hash, trace[j - 1], events[j - 1]);
    }
  }

  lemma {:induction false} DeadForever(hash: Hash, trace: seq<Store>, events: seq<Event>, i: nat, j: nat, familyId: string)
    requires IsRun(hash, trace, events) && i <= j < |trace| && FamilyDead(trace[i], familyId)
    ensures FamilyDead(trace[j], familyId)
    decreases j
  {
    hide Next, Enabled, FamilyDead;
    if i < j {
      DeadForever(hash, trace, events, i, j - 1, familyId);
      StepKeepsDead(hash, trace[j - 1], events[j - 1], familyId);
      assert trace[j - 1 + 1] == Next(hash, trace[j - 1], events[j - 1]);
    }
  }

  // ---------------------------------------------------------------------------------------------
  // Whole-run guarantees
  // ---------------------------------------------------------------------------------------------

  /** At every moment of every run each family has at most one unused, unrevoked record. */
  lemma {:induction false} FamiliesHaveOneLive(hash: Hash, trace: seq<Store>, events: seq<Event>, i: nat)
    requires IsRun(hash, trace, events) && i < |trace|
    ensures OneLivePerFamily(trace[i])
  {
    hide Next, Enabled, OneLivePerFamily;
    if i == 0 {
      NoneLiveAtStart();
    } else {
      FamiliesHaveOneLive(hash, trace, events, i - 1);
      StepKeepsOneLive(hash, trace[i - 1], events[i - 1]);
      assert trace[i - 1 + 1] == Next(hash, trace[i - 1], events[i - 1]);
    }
  }

  lemma NoneLiveAtStart()
    ensures OneLivePerFamily(map[])
  {
  }

  /** No token is accepted twice, whatever happens in between. */
  lemma ConsumedOnce(hash: Hash, trace: seq<Store>, events: seq<Event>, i: nat, j: nat, first: string, second: string)
    requires IsRun(hash, trace, events) && i < j < |events|
    requires Accepts(hash, trace[i], events[i], first) && Accepts(hash, trace[j], events[j], second)
    ensures first != second && hash(first) != hash(second)
  {
    hide Next, Enabled, Accepts, Persists;
    AcceptUses(hash, trace[i], events[i], first);
    AcceptUses(hash, trace[j], events[j], second);
    RunPersists(hash, trace, events, i + 1, j);
    PersistsUsed(trace[i + 1], trace[j], hash(first));
    assert trace[i + 1] == Next(hash, trace[i], events[i]);
  }

  lemma PersistsUsed(s: Store, s': Store, k: string)
    requires Persists(s, s') && k in s && s[k].usedAt.Some?
    ensures k in s' && s'[k].usedAt.Some?
  {
  }

  /**
    Once an unexpired used token is presented again, no token of its family is ever accepted: not
    one of its present records, and not one issued later.
  */
  lemma ReuseEndsTheFamily(hash: Hash, trace: seq<Store>, events: seq<Event>, i: nat, j: nat, reused: string, token: string)
    requires IsRun(hash, trace, events) && i < j < |events| && DetectsReuse(hash, trace[i], events[i], reused)
    requires hash(token) in trace[j] && trace[j][hash(token)].familyId == trace[i][hash(reused)].familyId
    ensures trace[j][hash(token)].revoked
    ensures !Accepts(hash, trace[j], events[j], token)
  {
    hide Next, Enabled, Accepts;
    var familyId := trace[i][hash(reused)].familyId;
    assert trace[i + 1] == Next(hash, trace[i], events[i]);
    ReuseKills(hash, trace[i], events[i], reused);
    DeadForever(hash, trace, events, i + 1, j, familyId);
    if Accepts(hash, trace[j], events[j], token) {
      AcceptUses(hash, trace[j], events[j], token);
    }
  }

  /** Presenting a used token after it has expired does not end the family: only that record is revoked. */
  lemma ExpiredReuseSparesTheFamily(hash: Hash, s: Store, e: Event, token: string, other: string)
    requires Enabled(hash, s, e) && Presents(e, token) && hash(token) in s && token != ""
    requires e.now >= s[hash(token)].expiresAt && other in s && other != hash(token)
    ensures Next(hash, s, e)[other] == s[other]
  {
  }

  /** A token is refused because of reuse, and its family ended, exactly when it is used, unrevoked and unexpired. */
  lemma FamilyEndsIff(hash: Hash, s: Store, token: string, now: int)
    requires Lookup(hash, s, token).Some? && !Lookup(hash, s, token).value.revoked && OneLivePerFamily(s)
    requires exists k :: k in s && k != hash(token) && s[k].familyId == s[hash(token)].familyId && !s[k].revoked
    ensures FamilyDead(Consume(hash, s, token, now).0, s[hash(token)].familyId) <==>
            now < s[hash(token)].expiresAt && s[hash(token)].usedAt.Some?
  {
    var f := s[hash(token)].familyId;
    var k :| k in s && k != hash(token) && s[k].familyId == f && !s[k].revoked;
    var s' := Consume(hash, s, token, now).0;
    assert k in s' && s'[k].familyId == f;
    assert hash(token) in s' && s'[hash(token)].familyId == f;
  }
}
