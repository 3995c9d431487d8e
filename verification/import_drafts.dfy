/**
 A staged provider import: how the accounts of a document become candidates with unique
 identifiers, and how sealing freezes one validated disposition on every candidate.
 */
module ImportDrafts {
  import opened Collections
  import Text

  const MAX_ID_ATTEMPTS := 8

  datatype CandidateState = Ready | Existing | Duplicate | Invalid | Unsupported

  /** The decision shown in the preview for one candidate. */
  datatype Disposition = Disposition(candidateID: string, state: CandidateState, sessionID: string, version: int)
  {
    function Trimmed(): Disposition {
      this.(candidateID := Text.TrimSpace(candidateID), sessionID := Text.TrimSpace(sessionID))
    }
  }

  datatype Candidate = Candidate(
    id: string,
    state: CandidateState,
    secretBytes: nat,
    disposition: Option<Disposition>)

  datatype Draft = Draft(
    expiresAt: nat,
    order: seq<string>,
    candidates: map<string, Candidate>,
    isSealed: bool,
    claimed: bool,
    size: nat)

  datatype SealError = CandidateNotFound | InvalidCandidate

  /** A blocked candidate keeps its state; a ready one is created or bound to an existing session. */
  predicate ValidDisposition(c: Candidate, d: Disposition) {
    if !c.state.Ready? then d.state == c.state && d.sessionID == "" && d.version == 0
    else match d.state
      case Ready => d.sessionID == "" && d.version == 0
      case Existing => d.sessionID != "" && d.version >= 1
      case _ => false
  }

  function TrimAll(ds: seq<Disposition>): (trimmed: seq<Disposition>)
    ensures |trimmed| == |ds| && forall i :: 0 <= i < |ds| ==> trimmed[i] == ds[i].Trimmed()
  {
    seq(|ds|, i requires 0 <= i < |ds| => ds[i].Trimmed())
  }

  /** The candidates after the dispositions ds were attached in order. */
  function Bound(candidates: map<string, Candidate>, ds: seq<Disposition>): map<string, Candidate> {
    if ds == [] then candidates
    else
      var before, d := Bound(candidates, ds[..|ds| - 1]), ds[|ds| - 1];
      if d.candidateID in before then before[d.candidateID := before[d.candidateID].(disposition := Some(d))]
      else before
  }

  function Names(ds: seq<Disposition>): set<string> {
    set i | 0 <= i < |ds| :: ds[i].candidateID
  }

  /** The first error the dispositions run into, or None. */
  function FirstError(candidates: map<string, Candidate>, ds: seq<Disposition>): Option<SealError> {
    if ds == [] then None
    else
      var before, d := FirstError(candidates, ds[..|ds| - 1]), ds[|ds| - 1];
      if before.Some? then before
      else if d.candidateID !in candidates then Some(CandidateNotFound)
      else if d.candidateID in Names(ds[..|ds| - 1]) then Some(InvalidCandidate)
      else if !ValidDisposition(candidates[d.candidateID], d) then Some(InvalidCandidate)
      else None
  }

  /** Attaches every disposition or none of them. */
  method BindDispositions(candidates: map<string, Candidate>, ds: seq<Disposition>)
    returns (bound: map<string, Candidate>, error: Option<SealError>)
    ensures error == FirstError(candidates, TrimAll(ds))
    ensures bound == if error.None? then Bound(candidates, TrimAll(ds)) else candidates
  {
    ghost var trimmed := TrimAll(ds);
    bound := candidates;
    var seen: set<string> := {};
    for i := 0 to |ds|
      invariant FirstError(candidates, trimmed[..i]) == None
      invariant bound == Bound(candidates, trimmed[..i])
      invariant bound.Keys == candidates.Keys
      invariant forall k <- candidates :: bound[k].state == candidates[k].state
      invariant seen == Names(trimmed[..i])
    {
      assert trimmed[..i + 1][..i] == trimmed[..i];
      NamesNext(trimmed, i);
      var d := ds[i].Trimmed();
      if d.candidateID !in bound {
        FirstErrorStays(candidates, trimmed, i + 1);
        return candidates, Some(CandidateNotFound);
      }
      if d.candidateID in seen || !ValidDisposition(bound[d.candidateID], d) {
        FirstErrorStays(candidates, trimmed, i + 1);
        return candidates, Some(InvalidCandidate);
      }
      seen := seen + {d.candidateID};
      bound := bound[d.candidateID := bound[d.candidateID].(disposition := Some(d))];
    }
    assert trimmed[..|ds|] == trimmed;
    error := None;
  }

  lemma NamesNext(ds: seq<Disposition>, i: nat)
    requires i < |ds|
    ensures Names(ds[..i + 1]) == Names(ds[..i]) + {ds[i].candidateID}
  {
    var next := ds[..i + 1];
    assert next[i] == ds[i];
    forall x <- Names(ds[..i]) ensures x in Names(next) {
      var j :| 0 <= j < i && ds[..i][j].candidateID == x;
      assert next[j] == ds[..i][j];
    }
    forall x <- Names(next) ensures x in Names(ds[..i]) + {ds[i].candidateID} {
      var j :| 0 <= j <= i && next[j].candidateID == x;
      if j < i { assert ds[..i][j] == next[j]; }
    }
  }

  lemma {:induction false} FirstErrorStays(candidates: map<string, Candidate>, ds: seq<Disposition>, i: nat)
    requires i <= |ds|
    requires FirstError(candidates, ds[..i]).Some?
    ensures FirstError(candidates, ds) == FirstError(candidates, ds[..i])
    decreases |ds| - i
  {
    if i < |ds| {
      assert ds[..i + 1][..i] == ds[..i];
      FirstErrorStays(candidates, ds, i + 1);
    } else {
      assert ds[..i] == ds;
    }
  }

  /** Dispositions are accepted exactly when they name distinct candidates and each is valid for its candidate. */
  lemma {:induction false} AcceptedIffDistinctAndValid(candidates: map<string, Candidate>, ds: seq<Disposition>)
    ensures FirstError(candidates, ds).None? <==>
            (forall i :: 0 <= i < |ds| ==>
               ds[i].candidateID in candidates && ValidDisposition(candidates[ds[i].candidateID], ds[i])) &&
            (forall i, j :: 0 <= i < j < |ds| ==> ds[i].candidateID != ds[j].candidateID)
  {
    if ds != [] {
      var n, front := |ds| - 1, ds[..|ds| - 1];
      AcceptedIffDistinctAndValid(candidates, front);
      assert forall i :: 0 <= i < n ==> front[i] == ds[i];
      var last := ds[n].candidateID;
      if last in Names(front) {
        var j :| 0 <= j < n && front[j].candidateID == last;
        assert ds[j].candidateID == ds[n].candidateID;
      }
    }
  }

  /** A well-formed draft lists each candidate once. */
  ghost predicate WellFormed(draft: Draft) {
    && Distinct(draft.order)
    && draft.candidates.Keys == (set x | x in draft.order)
    && (forall k <- draft.candidates :: draft.candidates[k].id == k)
    && (draft.isSealed ==> Decided(draft))
    && (draft.claimed ==> draft.isSealed)
  }

  /** Every candidate carries a disposition, for itself and validated against its state. */
  ghost predicate Decided(draft: Draft) {
    forall k <- draft.candidates :: draft.candidates[k].disposition.Some? &&
      draft.candidates[k].disposition.value.candidateID == k &&
      ValidDisposition(draft.candidates[k], draft.candidates[k].disposition.value)
  }

  /** Accepted dispositions are attached where they say, and nothing else changes. */
  lemma {:induction false} BoundAttaches(candidates: map<string, Candidate>, ds: seq<Disposition>)
    requires FirstError(candidates, ds).None?
    ensures Bound(candidates, ds).Keys == candidates.Keys
    ensures forall k <- candidates :: Bound(candidates, ds)[k].(disposition := None) == candidates[k].(disposition := None)
    ensures forall k <- candidates :: k !in Names(ds) ==> Bound(candidates, ds)[k] == candidates[k]
    ensures forall i :: 0 <= i < |ds| ==>
              ds[i].candidateID in candidates && Bound(candidates, ds)[ds[i].candidateID].disposition == Some(ds[i])
  {
    if ds != [] {
      var n, front := |ds| - 1, ds[..|ds| - 1];
      BoundAttaches(candidates, front);
      assert ds[..n + 1] == ds;
      NamesNext(ds, n);
      forall i | 0 <= i < |ds|
        ensures ds[i].candidateID in candidates && Bound(candidates, ds)[ds[i].candidateID].disposition == Some(ds[i])
      {
        if i < n {
          assert front[i] == ds[i];
          assert ds[i].candidateID in Names(front);
          assert ds[i].candidateID != ds[n].candidateID;
        }
      }
    }
  }

  lemma {:induction false} DistinctNames(ds: seq<Disposition>)
    requires forall i, j :: 0 <= i < j < |ds| ==> ds[i].candidateID != ds[j].candidateID
    ensures |Names(ds)| == |ds|
  {
    if ds != [] {
      var n := |ds| - 1;
      DistinctNames(ds[..n]);
      assert ds[..n + 1] == ds;
      NamesNext(ds, n);
    }
  }

  /**
   Pigeonhole: as many accepted dispositions as candidates leave no candidate undecided, and
   each candidate carries exactly the disposition that names it.
   */
  lemma SealingDecidesEveryCandidate(draft: Draft, ds: seq<Disposition>)
    requires WellFormed(draft) && |ds| == |draft.order|
    requires FirstError(draft.candidates, ds).None?
    ensures var done := draft.(candidates := Bound(draft.candidates, ds), isSealed := true);
            WellFormed(done) && Decided(done)
    ensures forall k <- draft.candidates ::
              exists i :: 0 <= i < |ds| && ds[i].candidateID == k &&
                          Bound(draft.candidates, ds)[k].disposition == Some(ds[i])
  {
    BoundAttaches(draft.candidates, ds);
    AcceptedIffDistinctAndValid(draft.candidates, ds);
    DistinctNames(ds);
    DistinctCardinality(draft.order);
    SubsetOfSameSize(Names(ds), draft.candidates.Keys);
    var bound := Bound(draft.candidates, ds);
    forall k <- draft.candidates
      ensures exists i :: 0 <= i < |ds| && ds[i].candidateID == k && bound[k].disposition == Some(ds[i])
      ensures ValidDisposition(bound[k], bound[k].disposition.value) && bound[k].disposition.value.candidateID == k
      ensures bound[k].id == k
    {
      assert k in Names(ds);
      var i :| 0 <= i < |ds| && ds[i].candidateID == k;
      assert bound[k].disposition == Some(ds[i]);
      assert bound[k].(disposition := None) == draft.candidates[k].(disposition := None);
    }
  }

  // ---- parsing a document into candidates ----

  /** What parsing one account of the document yields, before duplicates are detected. */
  datatype ParsedAccount = ParsedAccount(state: CandidateState, accountID: string, secretBytes: nat)

  /** Whether the generator's value at position j can serve as a new identifier. */
  predicate Fresh(generated: nat -> string, j: nat, used: set<string>) {
    Text.TrimSpace(generated(j)) != "" && Text.TrimSpace(generated(j)) !in used
  }

  method GenerateID(generated: nat -> string, cursor: nat, used: set<string>)
    returns (id: Option<string>, next: nat)
    ensures cursor <= next <= cursor + MAX_ID_ATTEMPTS
    ensures id.Some? ==>
              cursor < next && Fresh(generated, next - 1, used) && id.value == Text.TrimSpace(generated(next - 1))
    ensures id.None? <==> forall j :: cursor <= j < cursor + MAX_ID_ATTEMPTS ==> !Fresh(generated, j, used)
  {
    next := cursor;
    while next < cursor + MAX_ID_ATTEMPTS
      invariant cursor <= next <= cursor + MAX_ID_ATTEMPTS
      invariant forall j :: cursor <= j < next ==> !Fresh(generated, j, used)
    {
      var candidate := Text.TrimSpace(generated(next));
      next := next + 1;
      if candidate != "" && candidate !in used {
        assert Fresh(generated, next - 1, used);
        return Some(candidate), next;
      }
    }
    id := None;
  }

  /** The trimmed identifiers of the ready accounts. */
  function ReadyAccounts(accounts: seq<ParsedAccount>): set<string> {
    if accounts == [] then {}
    else
      var front, last := accounts[..|accounts| - 1], accounts[|accounts| - 1];
      ReadyAccounts(front) + if last.state.Ready? then {Text.TrimSpace(last.accountID)} else {}
  }

  /** The state of candidate i: a ready account repeating an earlier ready one is a duplicate. */
  function CandidateStateAt(accounts: seq<ParsedAccount>, i: nat): CandidateState
    requires i < |accounts|
  {
    if accounts[i].state.Ready? && Text.TrimSpace(accounts[i].accountID) in ReadyAccounts(accounts[..i]) then Duplicate
    else accounts[i].state
  }

  /** Candidate i of the document; a duplicate keeps no secret. */
  predicate ParsedAs(c: Candidate, accounts: seq<ParsedAccount>, i: nat)
    requires i < |accounts|
  {
    && c.id != "" && c.disposition == None
    && c.state == CandidateStateAt(accounts, i)
    && c.secretBytes == if accounts[i].state.Ready? && c.state.Duplicate? then 0 else accounts[i].secretBytes
  }

  predicate AllParsed(cs: seq<Candidate>, accounts: seq<ParsedAccount>) {
    |cs| == |accounts| && forall i :: 0 <= i < |cs| ==> ParsedAs(cs[i], accounts, i)
  }

  function CandidateFor(id: string, accounts: seq<ParsedAccount>, i: nat): Candidate
    requires i < |accounts|
  {
    var state := CandidateStateAt(accounts, i);
    Candidate(id, state, if accounts[i].state.Ready? && state.Duplicate? then 0 else accounts[i].secretBytes, None)
  }

  /** The candidates of the first accounts, when they get these identifiers. */
  function CandidatesFor(ids: seq<string>, accounts: seq<ParsedAccount>): (cs: seq<Candidate>)
    requires |ids| <= |accounts|
    ensures |cs| == |ids|
  {
    if ids == [] then []
    else
      var n := |ids| - 1;
      CandidatesFor(ids[..n], accounts) + [CandidateFor(ids[n], accounts, n)]
  }

  lemma {:induction false} CandidatesForMeaning(ids: seq<string>, accounts: seq<ParsedAccount>)
    requires |ids| <= |accounts| && forall i :: 0 <= i < |ids| ==> ids[i] != ""
    ensures forall i :: 0 <= i < |ids| ==>
              CandidatesFor(ids, accounts)[i].id == ids[i] && ParsedAs(CandidatesFor(ids, accounts)[i], accounts, i)
  {
    if ids != [] { CandidatesForMeaning(ids[..|ids| - 1], accounts); }
  }

  /** From the cursor on, every attempt yields a blank or used identifier. */
  ghost predicate Exhausts(generated: nat -> string, cursor: nat, used: set<string>) {
    forall j :: cursor <= j < cursor + MAX_ID_ATTEMPTS ==> !Fresh(generated, j, used)
  }

  /** Some eight attempts in a row fail although fewer identifiers than accounts are in use. */
  ghost predicate RunsOut(generated: nat -> string, accounts: nat) {
    exists cursor, used: set<string> :: |used| < accounts && Exhausts(generated, cursor, used)
  }

  method UnusedID(generated: nat -> string, cursor: nat, used: set<string>, ghost accounts: nat)
    returns (id: Option<string>, next: nat)
    requires |used| < accounts
    ensures id.Some? ==> id.value != "" && id.value !in used
    ensures id.None? ==> RunsOut(generated, accounts)
  {
    id, next := GenerateID(generated, cursor, used);
    if id.None? {
      assert Exhausts(generated, cursor, used);
    }
  }

  /** The candidate for account i, and the ready accounts seen up to it. */
  method ParseOne(id: string, accounts: seq<ParsedAccount>, i: nat, seen: set<string>)
    returns (candidate: Candidate, nextSeen: set<string>)
    requires i < |accounts| && id != "" && seen == ReadyAccounts(accounts[..i])
    ensures candidate == CandidateFor(id, accounts, i)
    ensures nextSeen == ReadyAccounts(accounts[..i + 1])
  {
    candidate, nextSeen := Candidate(id, accounts[i].state, accounts[i].secretBytes, None), seen;
    assert accounts[..i + 1][..i] == accounts[..i];
    if accounts[i].state.Ready? {
      var accountID := Text.TrimSpace(accounts[i].accountID);
      if accountID in seen {
        candidate := candidate.(state := Duplicate, secretBytes := 0);
      } else {
        nextSeen := seen + {accountID};
      }
    }
  }

  method ParseCandidates(accounts: seq<ParsedAccount>, generated: nat -> string)
    returns (candidates: Option<seq<Candidate>>)
    ensures candidates.Some? ==>
              var cs := candidates.value;
              && |cs| == |accounts|
              && AllParsed(cs, accounts)
              && (forall i, j :: 0 <= i < j < |cs| ==> cs[i].id != cs[j].id)
    ensures accounts == [] ==> candidates.None?
    ensures candidates.None? && accounts != [] ==> RunsOut(generated, |accounts|)
  {
    if |accounts| == 0 {
      return None;
    }
    var cs: seq<Candidate> := [];
    ghost var ids: seq<string> := [];
    var usedIDs, seenAccounts: set<string> := {}, {};
    var cursor := 0;
    for i := 0 to |accounts|
      invariant |ids| == i == |usedIDs|
      invariant cs == CandidatesFor(ids, accounts)
      invariant forall j :: 0 <= j < i ==> ids[j] in usedIDs && ids[j] != ""
      invariant forall j, k :: 0 <= j < k < i ==> ids[j] != ids[k]
      invariant seenAccounts == ReadyAccounts(accounts[..i])
    {
      var id, next := UnusedID(generated, cursor, usedIDs, |accounts|);
      if id.None? {
        return None;
      }
      cursor := next;
      var candidate;
      candidate, seenAccounts := ParseOne(id.value, accounts, i, seenAccounts);
      usedIDs := usedIDs + {id.value};
      assert (ids + [id.value])[..i] == ids;
      ids := ids + [id.value];
      cs := cs + [candidate];
    }
    CandidatesForMeaning(ids, accounts);
    return Some(cs);
  }

  lemma {:induction false} ReadyAccountsMember(accounts: seq<ParsedAccount>, i: nat)
    requires i < |accounts| && accounts[i].state.Ready?
    ensures Text.TrimSpace(accounts[i].accountID) in ReadyAccounts(accounts)
  {
    var n := |accounts| - 1;
    if i < n {
      assert accounts[..n][i] == accounts[i];
      ReadyAccountsMember(accounts[..n], i);
    }
  }

  /** A parsed document has at most one ready candidate for each account. */
  lemma OneReadyPerAccount(accounts: seq<ParsedAccount>, i: nat, j: nat)
    requires i < j < |accounts| && CandidateStateAt(accounts, i).Ready? && CandidateStateAt(accounts, j).Ready?
    ensures Text.TrimSpace(accounts[i].accountID) != Text.TrimSpace(accounts[j].accountID)
  {
    assert accounts[..j][i] == accounts[i];
    ReadyAccountsMember(accounts[..j], i);
  }

  lemma {:induction false} ReadyAccountsMeaning(accounts: seq<ParsedAccount>, account: string)
    ensures account in ReadyAccounts(accounts) <==>
            exists j :: 0 <= j < |accounts| && accounts[j].state.Ready? && Text.TrimSpace(accounts[j].accountID) == account
  {
    if accounts != [] {
      var n := |accounts| - 1;
      ReadyAccountsMeaning(accounts[..n], account);
      if j :| 0 <= j < n && accounts[..n][j].state.Ready? && Text.TrimSpace(accounts[..n][j].accountID) == account {
        assert accounts[j] == accounts[..n][j];
      }
      if j :| 0 <= j < n && accounts[j].state.Ready? && Text.TrimSpace(accounts[j].accountID) == account {
        assert accounts[..n][j] == accounts[j];
      }
    }
  }

  /** Exactly the first ready account of each identifier stays ready; later ones become duplicates and no other state changes. */
  lemma ReadyIffFirstOfItsAccount(accounts: seq<ParsedAccount>, i: nat)
    requires i < |accounts|
    ensures var repeats := exists j :: 0 <= j < i && accounts[j].state.Ready? &&
                             Text.TrimSpace(accounts[j].accountID) == Text.TrimSpace(accounts[i].accountID);
            CandidateStateAt(accounts, i) == if accounts[i].state.Ready? && repeats then Duplicate else accounts[i].state
  {
    var account := Text.TrimSpace(accounts[i].accountID);
    ReadyAccountsMeaning(accounts[..i], account);
    if j :| 0 <= j < i && accounts[j].state.Ready? && Text.TrimSpace(accounts[j].accountID) == account {
      assert accounts[..i][j] == accounts[j];
    }
    if j :| 0 <= j < i && accounts[..i][j].state.Ready? && Text.TrimSpace(accounts[..i][j].accountID) == account {
      assert accounts[j] == accounts[..i][j];
    }
  }

  /** The draft that a preview stages for parsed candidates. */
  function Staged(cs: seq<Candidate>, expiresAt: nat, size: nat): Draft
    requires forall i, j :: 0 <= i < j < |cs| ==> cs[i].id != cs[j].id
  {
    Draft(expiresAt,
          seq(|cs|, i requires 0 <= i < |cs| => cs[i].id),
          map i | 0 <= i < |cs| :: cs[i].id := cs[i],
          false, false, size)
  }

  /** Unique identifiers make a freshly staged draft well formed. */
  lemma StagedIsWellFormed(cs: seq<Candidate>, expiresAt: nat, size: nat)
    requires forall i, j :: 0 <= i < j < |cs| ==> cs[i].id != cs[j].id
    ensures WellFormed(Staged(cs, expiresAt, size))
  {
    var draft := Staged(cs, expiresAt, size);
    forall x | x in draft.order ensures x in draft.candidates {
      var i :| 0 <= i < |cs| && draft.order[i] == x;
      assert cs[i].id in draft.candidates;
    }
    forall x <- draft.candidates ensures x in draft.order {
      var i :| 0 <= i < |cs| && cs[i].id == x;
      assert draft.order[i] == x;
    }
  }
}
