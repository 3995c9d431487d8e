/**
 The three maps that coordinate refreshes of a credential session: calls in flight,
 recently refreshed credentials, and exchanges whose result is not yet stored. Each
 method is one critical section of the lock that protects the maps.
 */
module RefreshRegistry {
  import opened Collections
  import opened UsageObservation
  import Text

  const PROACTIVE_REFRESH_WINDOW: int := 60_000_000_000
  const RECENT_REUSE_WINDOW: int := 2 * PROACTIVE_REFRESH_WINDOW

  /** The secret half of a credential: what an exchange consumes and what it returns. */
  datatype Secret = Secret(
    accessToken: string,
    refreshToken: string,
    idToken: string,
    oauthIssuer: string,
    oauthClientID: string)

  datatype Credential = Credential(
    secret: Secret,
    accountID: string,
    planType: string,
    usage: Option<Usage>,
    lastRefresh: Instant,
    expiresAt: Instant)
  {
    predicate Ready() {
      && Text.TrimSpace(secret.accessToken) != ""
      && Text.TrimSpace(secret.refreshToken) != ""
      && Text.TrimSpace(accountID) != ""
    }
  }

  /** What identifies a generation: the secret with its issuer and client trimmed. */
  function Material(secret: Secret): Secret {
    secret.(oauthIssuer := Text.TrimSpace(secret.oauthIssuer),
            oauthClientID := Text.TrimSpace(secret.oauthClientID))
  }

  lemma MaterialIdempotent(secret: Secret)
    ensures Material(Material(secret)) == Material(secret)
  {
    Text.TrimmedIffFixed(secret.oauthIssuer);
    Text.TrimmedIffFixed(secret.oauthClientID);
    Text.TrimmedIffFixed(Text.TrimSpace(secret.oauthIssuer));
    Text.TrimmedIffFixed(Text.TrimSpace(secret.oauthClientID));
  }

  datatype Recent = Recent(credential: Credential, expiresAt: Instant)

  /** A successful exchange that is not stored yet; operation is its unique identifier. */
  datatype PendingCommit = PendingCommit(
    operation: nat,
    sourceVersion: nat,
    source: Secret,
    subject: string,
    credential: Credential)

  /** Everything the registry holds for one session. */
  datatype Slot<C(==)> = Slot(inFlight: Option<C>, recent: Option<Recent>, pending: Option<PendingCommit>)
  {
    function Pruned(now: Instant): Slot<C> {
      if recent.Some? && recent.value.expiresAt <= now then this.(recent := None) else this
    }

    function Begun(c: C): Slot<C> {
      if inFlight.Some? then this else this.(inFlight := Some(c))
    }

    function Finished(c: C): Slot<C> {
      if inFlight == Some(c) then this.(inFlight := None) else this
    }

    function Invalidated(): Slot<C> {
      this.(inFlight := None, recent := None)
    }

    function Recorded(p: PendingCommit): Slot<C> {
      this.(pending := Some(p))
    }

    function Forgotten(p: PendingCommit): Slot<C> {
      if pending == Some(p) then this.(pending := None) else this
    }

    function Stored(credential: Credential, now: Instant): Slot<C> {
      this.(recent := Some(Recent(credential, now + RECENT_REUSE_WINDOW)))
    }
  }

  function ShouldPrefer(candidate: Credential, current: Credential): bool {
    candidate.Ready() && candidate.accountID == current.accountID &&
    (!current.Ready() ||
     candidate.lastRefresh > current.lastRefresh ||
     (candidate.lastRefresh == current.lastRefresh && candidate.expiresAt > current.expiresAt) ||
     (candidate.secret.refreshToken == current.secret.refreshToken && candidate.expiresAt > current.expiresAt))
  }

  /** The candidate is later: refreshed later, or as late and expiring later. */
  predicate Later(candidate: Credential, current: Credential) {
    || candidate.lastRefresh > current.lastRefresh
    || (candidate.lastRefresh == current.lastRefresh && candidate.expiresAt > current.expiresAt)
  }

  /**
   What is preferred is usable, belongs to the same account and is not the copy it replaces. Of
   two usable credentials of one account the later one is preferred; both are preferred to each
   other exactly when one is refreshed later and the other, with the same refresh token, expires
   later.
   */
  lemma PreferenceMeaning(a: Credential, b: Credential)
    ensures ShouldPrefer(a, b) ==> a.Ready() && a.accountID == b.accountID && a != b
    ensures a.Ready() && a.accountID == b.accountID && !b.Ready() ==> ShouldPrefer(a, b)
    ensures a.Ready() && b.Ready() && a.accountID == b.accountID && Later(a, b) ==> ShouldPrefer(a, b)
    ensures a.Ready() && b.Ready() && a.accountID == b.accountID && Later(a, b) ==>
              (ShouldPrefer(b, a) <==>
                 a.lastRefresh > b.lastRefresh && b.expiresAt > a.expiresAt && a.secret.refreshToken == b.secret.refreshToken)
    ensures ShouldPrefer(a, b) && b.Ready() ==> a.lastRefresh > b.lastRefresh || a.expiresAt > b.expiresAt
  {
  }

  class Call {
    var done: bool
    var credential: Option<Credential>
    var failed: bool

    constructor ()
      ensures !done
    {
      done, credential, failed := false, None, false;
    }
  }

  /** The session identifiers that an invalidation request names after trimming. */
  function Named(sessionIDs: seq<string>): set<string> {
    if sessionIDs == [] then {}
    else
      var k := Text.TrimSpace(sessionIDs[|sessionIDs| - 1]);
      Named(sessionIDs[..|sessionIDs| - 1]) + if k == "" then {} else {k}
  }

  class Registry {
    var inFlight: map<string, Call>
    var recent: map<string, Recent>
    var pending: map<string, PendingCommit>

    constructor ()
      ensures forall k :: SlotAt(k) == Slot(None, None, None)
    {
      inFlight, recent, pending := map[], map[], map[];
    }

    function SlotAt(k: string): Slot<Call>
      reads this
    {
      Slot(if k in inFlight then Some(inFlight[k]) else None,
           if k in recent then Some(recent[k]) else None,
           if k in pending then Some(pending[k]) else None)
    }

    method PruneRecent(now: Instant)
      modifies this`recent
      ensures forall k :: SlotAt(k) == old(SlotAt(k)).Pruned(now)
    {
      var keys := recent.Keys;
      while keys != {}
        invariant keys <= old(recent).Keys
        invariant forall k :: k in keys ==> k in recent && recent[k] == old(recent)[k]
        invariant forall k :: k !in keys ==> SlotAt(k) == old(SlotAt(k)).Pruned(now)
        decreases |keys|
      {
        var k :| k in keys;
        if recent[k].expiresAt <= now {
          recent := recent - {k};
        }
        keys := keys - {k};
      }
    }

    method Begin(sessionID: string, now: Instant) returns (call: Call, leader: bool)
      modifies this`recent, this`inFlight
      ensures leader <==> old(SlotAt(sessionID)).inFlight.None?
      ensures leader ==> fresh(call) && !call.done
      ensures SlotAt(sessionID).inFlight == Some(call)
      ensures forall k :: SlotAt(k) ==
                          var slot := old(SlotAt(k)).Pruned(now);
                          if k == sessionID then slot.Begun(call) else slot
    {
      PruneRecent(now);
      if sessionID in inFlight {
        return inFlight[sessionID], false;
      }
      call := new Call();
      inFlight := inFlight[sessionID := call];
      leader := true;
    }

    /** Closing a call twice would panic, so a call must still be open here. */
    method Finish(sessionID: string, call: Call, credential: Option<Credential>, failed: bool)
      requires !call.done
      modifies this`inFlight, call
      ensures call.done && call.credential == credential && call.failed == failed
      ensures forall k :: SlotAt(k) ==
                          if k == sessionID then old(SlotAt(k)).Finished(call) else old(SlotAt(k))
    {
      call.credential, call.failed, call.done := credential, failed, true;
      if sessionID in inFlight && inFlight[sessionID] == call {
        inFlight := inFlight - {sessionID};
      }
    }

    /** Touches no pending commit. */
    method Invalidate(sessionIDs: seq<string>)
      modifies this`recent, this`inFlight
      ensures forall k :: SlotAt(k) ==
                          if k in Named(sessionIDs) then old(SlotAt(k)).Invalidated() else old(SlotAt(k))
    {
      for i := 0 to |sessionIDs|
        invariant recent == old(recent) - Named(sessionIDs[..i])
        invariant inFlight == old(inFlight) - Named(sessionIDs[..i])
      {
        var k := Text.TrimSpace(sessionIDs[i]);
        ghost var named := Named(sessionIDs[..i]);
        NamedNext(sessionIDs, i);
        if k != "" {
          recent := recent - {k};
          inFlight := inFlight - {k};
          MinusAgain(old(recent), named, k);
          MinusAgain(old(inFlight), named, k);
        }
      }
      assert sessionIDs[..|sessionIDs|] == sessionIDs;
    }

    method Record(sessionID: string, commit: PendingCommit)
      modifies this`pending
      ensures forall k :: SlotAt(k) ==
                          if k == sessionID then old(SlotAt(k)).Recorded(commit) else old(SlotAt(k))
    {
      pending := pending[sessionID := commit];
    }

    method Forget(sessionID: string, commit: PendingCommit)
      modifies this`pending
      ensures forall k :: SlotAt(k) ==
                          if k == sessionID then old(SlotAt(k)).Forgotten(commit) else old(SlotAt(k))
    {
      if sessionID in pending && pending[sessionID] == commit {
        pending := pending - {sessionID};
      }
    }

    method StoreRecent(sessionID: string, credential: Credential, now: Instant)
      modifies this`recent
      ensures forall k :: SlotAt(k) ==
                          if Text.TrimSpace(sessionID) == "" then old(SlotAt(k))
                          else
                            var slot := old(SlotAt(k)).Pruned(now);
                            if k == sessionID then slot.Stored(credential, now) else slot
    {
      if Text.TrimSpace(sessionID) == "" {
        return;
      }
      PruneRecent(now);
      recent := recent[sessionID := Recent(credential, now + RECENT_REUSE_WINDOW)];
    }

    /** A recent credential replaces a stale copy only for the same account and while it has not expired. */
    method ReuseRecent(sessionID: string, credential: Credential, now: Instant) returns (best: Credential)
      modifies this`recent
      ensures forall k :: SlotAt(k) == if Text.TrimSpace(sessionID) == "" then old(SlotAt(k)) else old(SlotAt(k)).Pruned(now)
      ensures best == if Text.TrimSpace(sessionID) != "" && sessionID in old(recent) && old(recent)[sessionID].expiresAt > now &&
                         ShouldPrefer(old(recent)[sessionID].credential, credential)
                      then old(recent)[sessionID].credential else credential
    {
      best := credential;
      if Text.TrimSpace(sessionID) == "" {
        return;
      }
      PruneRecent(now);
      assert SlotAt(sessionID) == old(SlotAt(sessionID)).Pruned(now);
      if sessionID in recent && ShouldPrefer(recent[sessionID].credential, credential) {
        best := recent[sessionID].credential;
      }
    }
  }

  lemma NamedNext(sessionIDs: seq<string>, i: nat)
    requires i < |sessionIDs|
    ensures Named(sessionIDs[..i + 1]) ==
            if Text.TrimSpace(sessionIDs[i]) == "" then Named(sessionIDs[..i])
            else Named(sessionIDs[..i]) + {Text.TrimSpace(sessionIDs[i])}
  {
    assert sessionIDs[..i + 1][..i] == sessionIDs[..i];
  }

  lemma MinusAgain<K, V>(m: map<K, V>, ks: set<K>, k: K)
    ensures m - ks - {k} == m - (ks + {k})
  {
  }
}
