/** API keys: their life cycle, and the exchange of a signed request for a token.  Each
    operation reads a row, changes it and saves it, as one atomic step. */
module ApiKeys {
  import opened Strings
  import opened Wrappers

  datatype Status = Deleted | Disabled | Enabled

  /** A row; the secret is the decrypted one. */
  datatype Key = Key(userId: int, keyId: string, secret: string, status: Status,
                     revokedAt: Option<int>, expiresAt: Option<int>)

  /** Row IDs are positions.  `nonces` is the Redis store of reserved nonces, each with the
      time at which its entry expires. */
  datatype State = State(rows: seq<Key>, nonces: map<string, int>)

  const INITIAL := State([], map[])

  /** Five minutes, in seconds: the signature window and the lifetime of a reserved nonce. */
  const SIGNATURE_TTL: int := 300

  datatype Outcome =
    | Done
    | Exchanged(row: nat)
    | NotFound
    | BadRequest
    | AuthenticationFailed
    | Conflict

  /** A request for a token, signed with some secret. */
  datatype TokenRequest = TokenRequest(keyId: string, nonce: string, timestamp: Option<int>, signedWith: string)

  datatype Operation =
    | Create(userId: int, keyId: string, secret: string, expiresAt: Option<int>)
    | Delete(userId: int, row: nat)
    | Disable(userId: int, row: nat)
    | Enable(userId: int, row: nat)
    | Revoke(userId: int, row: nat)
    | Rotate(userId: int, row: nat, secret: string)
    | Exchange(request: TokenRequest, ownerIsActive: bool)

  /** The owner's row, unless it is deleted. */
  predicate Owns(s: State, userId: int, row: nat) {
    row < |s.rows| && s.rows[row].userId == userId && s.rows[row].status != Deleted
  }

  predicate Answers(key: Key, keyId: string) {
    key.keyId == keyId && key.status != Deleted
  }

  /** The first row that is not deleted and has the key ID; the number of rows if none. */
  function Find(rows: seq<Key>, keyId: string): (i: nat)
    ensures i <= |rows| && (i < |rows| ==> rows[i].keyId == keyId && rows[i].status != Deleted)
    ensures forall j :: 0 <= j < i ==> rows[j].keyId != keyId || rows[j].status == Deleted
  {
    if rows == [] || Answers(rows[0], keyId) then 0 else 1 + Find(rows[1..], keyId)
  }

  function Save(s: State, row: nat, key: Key): State
    requires row < |s.rows|
  {
    s.(rows := s.rows[row := key])
  }

  /** The Redis key under which a nonce is reserved. */
  function NonceKey(keyId: string, nonce: string): string {
    "api_key:nonce:" + keyId + ":" + nonce
  }

  /** SETNX with an expiry: an entry is there until its time. */
  predicate IsReserved(s: State, name: string, now: int) {
    name in s.nonces && now < s.nonces[name]
  }

  /** All the checks on a key and a request before the nonce is reserved. */
  predicate Acceptable(key: Key, request: TokenRequest, now: int) {
    && key.status == Enabled && key.revokedAt.None?
    && (key.expiresAt.Some? ==> key.expiresAt.value >= now)
    && request.timestamp.Some? && now - SIGNATURE_TTL <= request.timestamp.value <= now + SIGNATURE_TTL
    && request.signedWith == key.secret
  }

  function Apply(s: State, op: Operation, now: int): (State, Outcome) {
    match op
    case Create(userId, keyId, secret, expiresAt) =>
      if Find(s.rows, keyId) < |s.rows| then (s, Conflict)
      else (s.(rows := s.rows + [Key(userId, keyId, secret, Enabled, None, expiresAt)]), Done)
    case Delete(userId, row) =>
      if !Owns(s, userId, row) then (s, NotFound)
      else (Save(s, row, s.rows[row].(status := Deleted)), Done)
    case Disable(userId, row) =>
      if !Owns(s, userId, row) then (s, NotFound)
      else (Save(s, row, s.rows[row].(status := Disabled)), Done)
    case Enable(userId, row) =>
      if !Owns(s, userId, row) then (s, NotFound)
      else if s.rows[row].revokedAt.Some? then (s, BadRequest)
      else (Save(s, row, s.rows[row].(status := Enabled)), Done)
    case Revoke(userId, row) =>
      if !Owns(s, userId, row) then (s, NotFound)
      else if s.rows[row].revokedAt.Some? then (s, Done)
      else (Save(s, row, s.rows[row].(revokedAt := Some(now), status := Disabled)), Done)
    case Rotate(userId, row, secret) =>
      if !Owns(s, userId, row) then (s, NotFound)
      else if s.rows[row].revokedAt.Some? then (s, BadRequest)
      else (Save(s, row, s.rows[row].(secret := secret)), Done)
    case Exchange(request, ownerIsActive) =>
      var row := Find(s.rows, request.keyId);
      if row == |s.rows| || !Acceptable(s.rows[row], request, now) then (s, AuthenticationFailed)
      else
        var name := NonceKey(request.keyId, request.nonce);
        if IsReserved(s, name, now) then (s, AuthenticationFailed)
        else
          var s' := s.(nonces := s.nonces[name := now + SIGNATURE_TTL]);
          if ownerIsActive then (s', Exchanged(row)) else (s', AuthenticationFailed)
  }

  /** A step of a run: an operation and the time at which it happens. */
  datatype Event = Event(op: Operation, now: int)

  function Run(s: State, es: seq<Event>): State
    decreases |es|
  {
    if es == [] then s else Run(Apply(s, es[0].op, es[0].now).0, es[1..])
  }

  /** The outcome of the k-th step. */
  function OutcomeAt(s: State, es: seq<Event>, k: nat): Outcome
    requires k < |es|
    decreases |es|
  {
    var (s', outcome) := Apply(s, es[0].op, es[0].now);
    if k == 0 then outcome else OutcomeAt(s', es[1..], k - 1)
  }

  ghost predicate InOrder(es: seq<Event>) {
    forall i, j :: 0 <= i < j < |es| ==> es[i].now <= es[j].now
  }

  // ---------------------------------------------------------------------------
  // Rows
  // ---------------------------------------------------------------------------

  /** Revoked keys are not enabled, and no two usable keys share a key ID. */
  ghost predicate Inv(s: State) {
    && (forall i :: 0 <= i < |s.rows| && s.rows[i].revokedAt.Some? ==> s.rows[i].status != Enabled)
    && (forall i, j :: 0 <= i < j < |s.rows| && s.rows[i].status != Deleted && s.rows[j].status != Deleted ==>
          s.rows[i].keyId != s.rows[j].keyId)
  }

  /** How a row may change: owner and key ID never, the revocation time only once, and a deleted
      row not at all. */
  ghost predicate Evolves(a: Key, b: Key) {
    && b.userId == a.userId && b.keyId == a.keyId && b.expiresAt == a.expiresAt
    && (a.revokedAt.Some? ==> b.revokedAt == a.revokedAt && b.secret == a.secret)
    && (a.status == Deleted ==> b == a)
  }

  /** `s'` is a sound successor of `s`. */
  ghost predicate Follows(s: State, s': State) {
    && Inv(s') && |s.rows| <= |s'.rows|
    && forall i :: 0 <= i < |s.rows| ==> Evolves(s.rows[i], s'.rows[i])
  }

  lemma SaveKeeps(s: State, row: nat, key: Key)
    requires Inv(s) && row < |s.rows| && s.rows[row].status != Deleted
    requires Evolves(s.rows[row], key) && (key.revokedAt.Some? ==> key.status != Enabled)
    ensures Follows(s, Save(s, row, key))
  {
  }

  lemma CreateKeeps(s: State, key: Key)
    requires Inv(s) && key.revokedAt.None? && Find(s.rows, key.keyId) == |s.rows|
    ensures Follows(s, s.(rows := s.rows + [key]))
  {
  }

  lemma StepKeeps(s: State, op: Operation, now: int)
    requires Inv(s)
    ensures Follows(s, Apply(s, op, now).0)
  {
    match op
    case Create(userId, keyId, secret, expiresAt) =>
      if Find(s.rows, keyId) == |s.rows| {
        CreateKeeps(s, Key(userId, keyId, secret, Enabled, None, expiresAt));
      }
    case Delete(u, row) =>
      if Owns(s, u, row) { SaveKeeps(s, row, s.rows[row].(status := Deleted)); }
    case Disable(u, row) =>
      if Owns(s, u, row) { SaveKeeps(s, row, s.rows[row].(status := Disabled)); }
    case Enable(u, row) =>
      if Owns(s, u, row) && s.rows[row].revokedAt.None? { SaveKeeps(s, row, s.rows[row].(status := Enabled)); }
    case Revoke(u, row) =>
      if Owns(s, u, row) && s.rows[row].revokedAt.None? {
        SaveKeeps(s, row, s.rows[row].(revokedAt := Some(now), status := Disabled));
      }
    case Rotate(u, row, secret) =>
      if Owns(s, u, row) && s.rows[row].revokedAt.None? { SaveKeeps(s, row, s.rows[row].(secret := secret)); }
    case Exchange(_, _) =>
  }

  lemma {:induction false} RunKeeps(s: State, es: seq<Event>)
    requires Inv(s)
    ensures Follows(s, Run(s, es))
    decreases |es|
  {
    if es != [] {
      StepKeeps(s, es[0].op, es[0].now);
      RunKeeps(Apply(s, es[0].op, es[0].now).0, es[1..]);
    }
  }

  ghost predicate Dead(key: Key) {
    key.status == Deleted || key.revokedAt.Some?
  }

  /** Once a key is revoked or deleted, no exchange on it succeeds, whatever happens later. */
  lemma {:induction false} DeadKeysStayDead(s: State, es: seq<Event>, row: nat, k: nat)
    requires Inv(s) && row < |s.rows| && Dead(s.rows[row]) && k < |es|
    ensures OutcomeAt(s, es, k) != Exchanged(row)
    decreases |es|
  {
    var (s', outcome) := Apply(s, es[0].op, es[0].now);
    if k > 0 {
      StepKeeps(s, es[0].op, es[0].now);
      assert Evolves(s.rows[row], s'.rows[row]);
      DeadKeysStayDead(s', es[1..], row, k - 1);
    }
  }

  /** Revoking or deleting a key makes it dead, at once. */
  lemma RevokeAndDeleteKill(s: State, userId: int, row: nat, now: int)
    requires Owns(s, userId, row)
    ensures Dead(Apply(s, Revoke(userId, row), now).0.rows[row])
    ensures Apply(s, Delete(userId, row), now).0.rows[row].status == Deleted
  {
  }

  /** An exchange only ever succeeds on an enabled key that has not expired. */
  lemma ExchangeNeedsEnabledKey(s: State, op: Operation, now: int, row: nat)
    requires Apply(s, op, now).1 == Exchanged(row)
    ensures row < |s.rows| && s.rows[row].status == Enabled && s.rows[row].revokedAt.None?
    ensures s.rows[row].expiresAt.Some? ==> now <= s.rows[row].expiresAt.value
  {
  }

  /** A key that is not enabled gets no token until somebody enables it. */
  lemma {:induction false} DisabledKeysGetNoToken(s: State, es: seq<Event>, row: nat, k: nat)
    requires row < |s.rows| && s.rows[row].status != Enabled && k < |es|
    requires forall i :: 0 <= i < k ==> !(es[i].op.Enable? && es[i].op.row == row)
    ensures OutcomeAt(s, es, k) != Exchanged(row)
    decreases |es|
  {
    var s' := Apply(s, es[0].op, es[0].now).0;
    if k > 0 {
      assert !(es[0].op.Enable? && es[0].op.row == row);
      assert row < |s'.rows| && s'.rows[row].status != Enabled;
      DisabledKeysGetNoToken(s', es[1..], row, k - 1);
    }
  }

  /** No key gets a token after its expiry, whatever happens to it. */
  lemma {:induction false} ExpiredKeysGetNoToken(s: State, es: seq<Event>, row: nat, k: nat)
    requires row < |s.rows| && s.rows[row].expiresAt.Some? && k < |es| && s.rows[row].expiresAt.value < es[k].now
    ensures OutcomeAt(s, es, k) != Exchanged(row)
    decreases |es|
  {
    var s' := Apply(s, es[0].op, es[0].now).0;
    if k > 0 {
      assert row < |s'.rows| && s'.rows[row].expiresAt == s.rows[row].expiresAt;
      ExpiredKeysGetNoToken(s', es[1..], row, k - 1);
    }
  }

  /** A usable key with the requested ID is exchanged exactly when it is enabled, unrevoked and
      unexpired, the request is fresh and signed with its secret, the nonce is not reserved, and
      the owner is active. */
  lemma ExchangeSucceedsExactly(s: State, request: TokenRequest, ownerIsActive: bool, now: int, row: nat)
    requires Inv(s) && row < |s.rows| && Answers(s.rows[row], request.keyId)
    ensures Apply(s, Exchange(request, ownerIsActive), now).1 == Exchanged(row) <==>
            var key, name := s.rows[row], "api_key:nonce:" + request.keyId + ":" + request.nonce;
            && key.status == Enabled && key.revokedAt.None? && (key.expiresAt.Some? ==> now <= key.expiresAt.value)
            && request.timestamp.Some? && now - 300 <= request.timestamp.value <= now + 300
            && request.signedWith == key.secret && !(name in s.nonces && now < s.nonces[name]) && ownerIsActive
  {
    assert Find(s.rows, request.keyId) == row;
  }

  /** After a rotation a request signed with another secret than the new one fails. */
  lemma RotationRetiresOldSecret(s: State, userId: int, row: nat, secret: string, now: int,
                                 request: TokenRequest, ownerIsActive: bool, later: int)
    requires Inv(s) && Apply(s, Rotate(userId, row, secret), now).1 == Done && row < |s.rows|
    requires request.keyId == s.rows[row].keyId && request.signedWith != secret
    ensures Apply(Apply(s, Rotate(userId, row, secret), now).0, Exchange(request, ownerIsActive), later).1
         == AuthenticationFailed
  {
    var s' := Apply(s, Rotate(userId, row, secret), now).0;
    StepKeeps(s, Rotate(userId, row, secret), now);
    assert Answers(s'.rows[row], request.keyId);
    assert Find(s'.rows, request.keyId) == row;
  }

  // ---------------------------------------------------------------------------
  // Nonces
  // ---------------------------------------------------------------------------

  /** An entry is only ever replaced by a later one. */
  lemma {:induction false} ReservationLasts(s: State, es: seq<Event>, name: string, until: int, k: nat)
    requires name in s.nonces && s.nonces[name] >= until && InOrder(es) && k < |es|
    requires forall i :: 0 <= i < |es| ==> es[i].now >= until - SIGNATURE_TTL
    requires es[k].op.Exchange? && NonceKey(es[k].op.request.keyId, es[k].op.request.nonce) == name
    requires OutcomeAt(s, es, k).Exchanged?
    ensures es[k].now >= until
    decreases |es|
  {
    var s' := Apply(s, es[0].op, es[0].now).0;
    if k > 0 {
      assert name in s'.nonces && s'.nonces[name] >= until;
      ReservationLasts(s', es[1..], name, until, k - 1);
    }
  }

  /** Two successful exchanges with the same key ID and nonce are at least the nonce's lifetime
      apart. */
  lemma {:induction false} NonceReuseIsLate(s: State, es: seq<Event>, j: nat, k: nat)
    requires InOrder(es) && j < k < |es|
    requires es[j].op.Exchange? && OutcomeAt(s, es, j).Exchanged?
    requires es[k].op.Exchange? && OutcomeAt(s, es, k).Exchanged?
    requires es[j].op.request.keyId == es[k].op.request.keyId && es[j].op.request.nonce == es[k].op.request.nonce
    ensures es[k].now >= es[j].now + SIGNATURE_TTL
    decreases |es|
  {
    var s' := Apply(s, es[0].op, es[0].now).0;
    if j == 0 {
      var name := NonceKey(es[0].op.request.keyId, es[0].op.request.nonce);
      ReservationLasts(s', es[1..], name, es[0].now + SIGNATURE_TTL, k - 1);
    } else {
      NonceReuseIsLate(s', es[1..], j - 1, k - 1);
    }
  }

  /** Key IDs without a colon never share a nonce entry. */
  lemma NonceKeysAreSeparate(keyId: string, nonce: string, keyId': string, nonce': string)
    requires ':' !in keyId && ':' !in keyId'
    ensures NonceKey(keyId, nonce) == NonceKey(keyId', nonce') <==> keyId == keyId' && nonce == nonce'
  {
    var prefix := "api_key:nonce:";
    var a, b := keyId + [':'] + nonce, keyId' + [':'] + nonce';
    if NonceKey(keyId, nonce) == NonceKey(keyId', nonce') {
      assert NonceKey(keyId, nonce) == prefix + a && NonceKey(keyId', nonce') == prefix + b;
      assert a == (prefix + a)[|prefix|..] == (prefix + b)[|prefix|..] == b;
      IndexOfPrefix(keyId, ':', nonce);
      IndexOfPrefix(keyId', ':', nonce');
      assert keyId == a[..|keyId|] && nonce == a[|keyId| + 1..];
      assert keyId' == b[..|keyId'|] && nonce' == b[|keyId'| + 1..];
    }
  }

  // ---------------------------------------------------------------------------
  // The service
  // ---------------------------------------------------------------------------

  /** Nothing but the one row changed. */
  ghost predicate OnlyRow(a: seq<Key>, b: seq<Key>, row: nat) {
    |a| == |b| && forall i :: 0 <= i < |a| && i != row ==> b[i] == a[i]
  }

  /** Some key that is not deleted has the ID. */
  ghost predicate IsTaken(rows: seq<Key>, keyId: string) {
    exists i :: 0 <= i < |rows| && Answers(rows[i], keyId)
  }

  /** Everything about a key but its status, or its secret. */
  ghost predicate DiffersInStatus(a: Key, b: Key) {
    b == a.(status := b.status)
  }

  ghost predicate DiffersInSecret(a: Key, b: Key) {
    b == a.(secret := b.secret)
  }

  /** A well-formed request with the key's secret, made now by an active user, gets a token. */
  ghost predicate WorksNow(s: State, row: nat, keyId: string, secret: string, now: int) {
    forall nonce :: !IsReserved(s, NonceKey(keyId, nonce), now) ==>
      Apply(s, Exchange(TokenRequest(keyId, nonce, Some(now), secret), true), now).1 == Exchanged(row)
  }

  /** The row is the first that has the ID and is not deleted. */
  ghost predicate IsFirstLive(rows: seq<Key>, keyId: string, row: nat) {
    && row < |rows| && rows[row].keyId == keyId && rows[row].status != Deleted
    && forall i :: 0 <= i < row ==> rows[i].keyId != keyId || rows[i].status == Deleted
  }

  /** The first live key with the ID may be used now, and the request is recent and signed with its
      secret. */
  ghost predicate IsWellSigned(rows: seq<Key>, request: TokenRequest, now: int) {
    exists row: nat :: IsFirstLive(rows, request.keyId, row) &&
      rows[row].status == Enabled && rows[row].revokedAt == None &&
      (rows[row].expiresAt == None || now <= rows[row].expiresAt.value) &&
      request.timestamp.Some? && now - 300 <= request.timestamp.value <= now + 300 &&
      request.signedWith == rows[row].secret
  }

  /** The nonce has not been used with the key ID in the last five minutes. */
  ghost predicate IsFree(nonces: map<string, int>, request: TokenRequest, now: int) {
    var name := "api_key:nonce:" + request.keyId + ":" + request.nonce;
    name !in nonces || nonces[name] <= now
  }

  lemma RevokingTwiceIsRevokingOnce(s: State, userId: int, row: nat, now: int, later: int)
    ensures var s' := Apply(s, Revoke(userId, row), now).0; Apply(s', Revoke(userId, row), later).0 == s'
  {
  }

  lemma NewKeyIsFound(rows: seq<Key>, key: Key)
    requires !IsTaken(rows, key.keyId) && key.status != Deleted
    ensures Find(rows + [key], key.keyId) == |rows|
  {
    var all := rows + [key];
    assert Answers(all[|rows|], key.keyId);
    assert forall i :: 0 <= i < |rows| ==> all[i] == rows[i];
  }

  class Service {
    var rows: seq<Key>
    var nonces: map<string, int>

    function View(): State
      reads this
    {
      State(rows, nonces)
    }

    /** Refused exactly if the ID is taken; otherwise the old keys are as they were and the new one
        works at once, if it has not expired. */
    method CreateApiKey(userId: int, keyId: string, secret: string, expiresAt: Option<int>, now: int) returns (r: Outcome)
      modifies this
      ensures (View(), r) == Apply(old(View()), Create(userId, keyId, secret, expiresAt), now)
      ensures r == Conflict <==> exists i :: 0 <= i < |old(rows)| && old(rows)[i].keyId == keyId && old(rows)[i].status != Deleted
      ensures r == Conflict ==> View() == old(View())
      ensures r == Done ==> rows == old(rows) + [Key(userId, keyId, secret, Enabled, None, expiresAt)] && nonces == old(nonces)
      ensures r == Done && (expiresAt.Some? ==> now <= expiresAt.value) ==> WorksNow(View(), |old(rows)|, keyId, secret, now)
      ensures old(Inv(View())) ==> Inv(View())
    {
      if Find(rows, keyId) < |rows| {
        return Conflict;
      }
      ghost var key := Key(userId, keyId, secret, Enabled, None, expiresAt);
      NewKeyIsFound(rows, key);
      rows := rows + [Key(userId, keyId, secret, Enabled, None, expiresAt)];
      return Done;
    }

    /** Only an owner deletes a key, only that row changes, and the key's ID is free again. */
    method DeleteApiKey(userId: int, row: nat, now: int) returns (r: Outcome)
      modifies this
      ensures (View(), r) == Apply(old(View()), Delete(userId, row), now)
      ensures r == Done <==> row < |old(rows)| && old(rows)[row].userId == userId && old(rows)[row].status != Deleted
      ensures OnlyRow(old(rows), rows, row) && nonces == old(nonces) && (r != Done ==> rows == old(rows))
      ensures r == Done ==> rows[row].status == Deleted && DiffersInStatus(old(rows)[row], rows[row])
      ensures r == Done && old(Inv(View())) ==> Inv(View()) && !IsTaken(rows, old(rows)[row].keyId)
    {
      if !Owns(View(), userId, row) {
        return NotFound;
      }
      rows := rows[row := rows[row].(status := Deleted)];
      return Done;
    }

    /** `setAPIKeyStatus`, shared by enabling and disabling: nothing but the status of the one key
        changes, and a revoked key never comes back. */
    method SetStatus(userId: int, row: nat, status: Status, now: int) returns (r: Outcome)
      requires status != Deleted
      modifies this
      ensures (View(), r) == Apply(old(View()), if status == Enabled then Enable(userId, row) else Disable(userId, row), now)
      ensures OnlyRow(old(rows), rows, row) && nonces == old(nonces) && (r != Done ==> rows == old(rows))
      ensures r == NotFound <==> !(row < |old(rows)| && old(rows)[row].userId == userId && old(rows)[row].status != Deleted)
      ensures r == BadRequest <==> r != NotFound && status == Enabled && old(rows)[row].revokedAt.Some?
      ensures r == Done ==> rows[row].status == status && DiffersInStatus(old(rows)[row], rows[row])
      ensures r == Done && status == Enabled ==> !Dead(rows[row])
      ensures old(Inv(View())) ==> Inv(View())
    {
      if !Owns(View(), userId, row) {
        return NotFound;
      }
      if status == Enabled && rows[row].revokedAt.Some? {
        return BadRequest;
      }
      rows := rows[row := rows[row].(status := status)];
      return Done;
    }

    /** An owner's call leaves the key dead, with the time of the first revocation; no other key
        changes. */
    method RevokeApiKey(userId: int, row: nat, now: int) returns (r: Outcome)
      modifies this
      ensures (View(), r) == Apply(old(View()), Revoke(userId, row), now)
      ensures r == Done <==> row < |old(rows)| && old(rows)[row].userId == userId && old(rows)[row].status != Deleted
      ensures OnlyRow(old(rows), rows, row) && nonces == old(nonces) && (r != Done ==> rows == old(rows))
      ensures r == Done ==> Dead(rows[row]) && forall request, t :: !Acceptable(rows[row], request, t)
      ensures r == Done && old(rows)[row].revokedAt.Some? ==> rows == old(rows)
      ensures r == Done && old(rows)[row].revokedAt.None? ==>
        rows[row] == old(rows)[row].(status := Disabled, revokedAt := Some(now))
      ensures old(Inv(View())) ==> Inv(View())
    {
      if !Owns(View(), userId, row) {
        return NotFound;
      }
      if rows[row].revokedAt.Some? {
        return Done;
      }
      rows := rows[row := rows[row].(revokedAt := Some(now), status := Disabled)];
      return Done;
    }

    /** From now on only requests signed with the new secret can be accepted; nothing else about
        the key changes, and no other key does. */
    method RotateApiKey(userId: int, row: nat, secret: string, now: int) returns (r: Outcome)
      modifies this
      ensures (View(), r) == Apply(old(View()), Rotate(userId, row, secret), now)
      ensures OnlyRow(old(rows), rows, row) && nonces == old(nonces) && (r != Done ==> rows == old(rows))
      ensures r == NotFound <==> !(row < |old(rows)| && old(rows)[row].userId == userId && old(rows)[row].status != Deleted)
      ensures r == BadRequest <==> r != NotFound && old(rows)[row].revokedAt.Some?
      ensures r == Done ==> rows[row].secret == secret && DiffersInSecret(old(rows)[row], rows[row])
      ensures r == Done ==> forall request, t :: Acceptable(rows[row], request, t) ==> request.signedWith == secret
      ensures old(Inv(View())) ==> Inv(View())
    {
      if !Owns(View(), userId, row) {
        return NotFound;
      }
      if rows[row].revokedAt.Some? {
        return BadRequest;
      }
      rows := rows[row := rows[row].(secret := secret)];
      return Done;
    }

    /** A token is given exactly for the first live key with the ID, if it is enabled, not revoked and
        not expired, the request is at most five minutes off and signed with the key's secret, the
        nonce is free, and the owner is active.  The nonce is reserved also if only the last fails. */
    method ExchangeToken(request: TokenRequest, ownerIsActive: bool, now: int) returns (r: Outcome)
      modifies this
      ensures (View(), r) == Apply(old(View()), Exchange(request, ownerIsActive), now)
      ensures rows == old(rows) && (r.Exchanged? || r == AuthenticationFailed)
      ensures IsWellSigned(old(rows), request, now) && IsFree(old(nonces), request, now) ==>
        nonces == old(nonces)["api_key:nonce:" + request.keyId + ":" + request.nonce := now + 300] &&
        (r.Exchanged? <==> ownerIsActive)
      ensures !(IsWellSigned(old(rows), request, now) && IsFree(old(nonces), request, now)) ==>
        nonces == old(nonces) && r == AuthenticationFailed
      ensures r.Exchanged? ==> IsFirstLive(rows, request.keyId, r.row)
    {
      var row := Find(rows, request.keyId);
      assert forall i: nat :: IsFirstLive(rows, request.keyId, i) <==> row < |rows| && i == row;
      if row == |rows| {
        return AuthenticationFailed;
      }
      var key := rows[row];
      if key.status != Enabled || key.revokedAt.Some? {
        return AuthenticationFailed;
      }
      if key.expiresAt.Some? && key.expiresAt.value < now {
        return AuthenticationFailed;
      }
      if request.timestamp.None? {
        return AuthenticationFailed;
      }
      var at := request.timestamp.value;
      if at < now - SIGNATURE_TTL || at > now + SIGNATURE_TTL {
        return AuthenticationFailed;
      }
      if request.signedWith != key.secret {
        return AuthenticationFailed;
      }
      var name := NonceKey(request.keyId, request.nonce);
      if name in nonces && now < nonces[name] {
        return AuthenticationFailed;
      }
      nonces := nonces[name := now + SIGNATURE_TTL];
      if !ownerIsActive {
        return AuthenticationFailed;
      }
      return Exchanged(row);
    }
  }
}
