/**
 Refresh tokens of one user when requests interleave. Logins and rotations read the user once and
 later write lists computed from that snapshot; a logout is one write. Every read and every write
 is its own step, so anything may happen between a request's read and its writes.
 */
module TokenRaces {
  import opened Runs
  import opened Users
  import opened RefreshTokens

  type RequestId = nat

  datatype Race = Race(
    stored: seq<Token>,
    snapshots: map<RequestId, seq<Token>>,  // what a request in flight has read
    epoch: nat,                             // history: number of logouts
    readIn: map<RequestId, nat>,            // history: the epoch of a request's read
    issuedIn: map<Token, nat>               // history: the epoch a token was last issued in
  )

  datatype Access =
    | Read(request: RequestId)
    | WriteAdded(request: RequestId, token: Token)        // addRefreshToken
    | WriteRemoved(request: RequestId, token: Token)      // removeRefreshToken
    | WriteCleared                                        // clearRefreshTokens

  const Start := Race([], map[], 0, map[], map[])

  function Perform(s: Race, a: Access): Race {
    match a
    case Read(r) => s.(snapshots := s.snapshots[r := s.stored], readIn := s.readIn[r := s.epoch])
    case WriteAdded(r, token) =>
      if r !in s.snapshots then s
      else s.(stored := s.snapshots[r] + [token], issuedIn := s.issuedIn[token := s.epoch])
    case WriteRemoved(r, token) =>
      if r !in s.snapshots then s else s.(stored := WithoutToken(s.snapshots[r], token))
    case WriteCleared => s.(stored := [], epoch := s.epoch + 1)
  }

  /** No logout has come between a write and the read it is based on. */
  predicate Current(s: Race, a: Access) {
    match a
    case WriteAdded(r, _) => r in s.snapshots ==> r in s.readIn && s.readIn[r] == s.epoch
    case WriteRemoved(r, _) => r in s.snapshots ==> r in s.readIn && s.readIn[r] == s.epoch
    case _ => true
  }

  ghost predicate AllCurrent(s: Race, accesses: seq<Access>)
    decreases |accesses|
  {
    accesses == [] || (Current(s, accesses[0]) && AllCurrent(Perform(s, accesses[0]), accesses[1..]))
  }

  predicate IssuedSince(s: Race, token: Token, epoch: nat) {
    token in s.issuedIn && s.issuedIn[token] >= epoch
  }

  /** No stored token was last issued before the latest logout. */
  ghost predicate RevocationHolds(s: Race) {
    forall token :: token in s.stored ==> IssuedSince(s, token, s.epoch)
  }

  ghost predicate SnapshotsHold(s: Race) {
    && s.snapshots.Keys == s.readIn.Keys
    && (forall r :: r in s.readIn ==> s.readIn[r] <= s.epoch)
    && (forall r, token :: r in s.snapshots && token in s.snapshots[r] ==> IssuedSince(s, token, s.readIn[r]))
    && (forall token :: token in s.issuedIn ==> s.issuedIn[token] <= s.epoch)
  }

  /** The tokens a write keeps from the list its request has read. */
  ghost predicate Carries(s: Race, a: Access, token: Token) {
    match a
    case WriteAdded(r, added) => r in s.snapshots && token in s.snapshots[r] && token != added
    case WriteRemoved(r, removed) => r in s.snapshots && token in s.snapshots[r] && token != removed
    case _ => false
  }

  /** A write that carries no token over from before the latest logout; reads and logouts always are. */
  ghost predicate Live(s: Race, a: Access) {
    forall token :: Carries(s, a, token) ==> IssuedSince(s, token, s.epoch)
  }

  lemma PerformKeepsIffLive(s: Race, a: Access)
    requires RevocationHolds(s)
    ensures RevocationHolds(Perform(s, a)) <==> Live(s, a)
  {
    var t := Perform(s, a);
    match a
    case WriteRemoved(r, removed) =>
      if r in s.snapshots {
        forall token ensures token in t.stored <==> Carries(s, a, token) {
          WithoutTokenMember(s.snapshots[r], removed, token);
        }
      }
    case WriteAdded(r, added) =>
      if r in s.snapshots {
        assert forall token :: token in t.stored <==> Carries(s, a, token) || token == added;
      }
    case _ =>
  }

  /**
   Main result: in any interleaving of reads and writes, revocation holds at every point if and only
   if no write carries over a token from before the latest logout.
   */
  lemma RevocationHoldsIffLive(s: Race, accesses: seq<Access>)
    requires RevocationHolds(s)
    ensures (forall k :: 0 <= k <= |accesses| ==> RevocationHolds(Run(Perform, s, accesses[..k])))
            <==> (forall k :: 0 <= k < |accesses| ==> Live(Run(Perform, s, accesses[..k]), accesses[k]))
  {
    forall t, a | RevocationHolds(t) ensures RevocationHolds(Perform(t, a)) <==> Live(t, a) {
      PerformKeepsIffLive(t, a);
    }
    HoldsThroughoutIff(Perform, _ => true, RevocationHolds, Live, s, accesses);
  }

  lemma CurrentIsLive(s: Race, a: Access)
    requires SnapshotsHold(s) && Current(s, a)
    ensures Live(s, a)
  {
    forall token | Carries(s, a, token) ensures IssuedSince(s, token, s.epoch) {
      assert IssuedSince(s, token, s.readIn[a.request]);
    }
  }

  lemma PerformKeepsSnapshots(s: Race, a: Access)
    requires RevocationHolds(s) && SnapshotsHold(s)
    ensures SnapshotsHold(Perform(s, a))
  {
  }

  /** In particular it holds when no logout falls between a request's read and its writes. */
  lemma {:induction false} CurrentWritesKeepRevocation(s: Race, accesses: seq<Access>)
    requires RevocationHolds(s) && SnapshotsHold(s) && AllCurrent(s, accesses)
    ensures RevocationHolds(Run(Perform, s, accesses))
    decreases |accesses|
  {
    if accesses == [] {
    } else {
      CurrentIsLive(s, accesses[0]);
      PerformKeepsIffLive(s, accesses[0]);
      PerformKeepsSnapshots(s, accesses[0]);
      CurrentWritesKeepRevocation(Perform(s, accesses[0]), accesses[1..]);
    }
  }

  lemma InterleavingsKeepRevocation(accesses: seq<Access>)
    requires AllCurrent(Start, accesses)
    ensures RevocationHolds(Run(Perform, Start, accesses))
  {
    CurrentWritesKeepRevocation(Start, accesses);
  }

  /**
   A logout between a rotation's read and its last write is undone: exactly the tokens the rotation
   had read, but the presented one, are stored again, and if there is any, revocation is lost.
   */
  lemma RotationUndoesALogout(s: Race, r: RequestId, presented: Token, renewed: Token)
    requires RevocationHolds(s) && SnapshotsHold(s)
    requires renewed !in s.stored && presented in s.stored
    ensures var t := Run(Perform, s, [Read(r), WriteAdded(r, renewed), WriteCleared, WriteRemoved(r, presented)]);
            && t.stored == WithoutToken(s.stored, presented)
            && (RevocationHolds(t) <==> forall token :: token in s.stored ==> token == presented)
  {
    var accesses := [Read(r), WriteAdded(r, renewed), WriteCleared];
    RunAppend(Perform, s, [], Read(r));
    RunAppend(Perform, s, [Read(r)], WriteAdded(r, renewed));
    RunAppend(Perform, s, [Read(r), WriteAdded(r, renewed)], WriteCleared);
    RunAppend(Perform, s, accesses, WriteRemoved(r, presented));
    assert [] + [Read(r)] == [Read(r)];
    assert accesses + [WriteRemoved(r, presented)]
        == [Read(r), WriteAdded(r, renewed), WriteCleared, WriteRemoved(r, presented)];
    var t := Run(Perform, s, accesses + [WriteRemoved(r, presented)]);
    forall token | token in s.stored ensures token in t.stored <==> token != presented {
      WithoutTokenMember(s.stored, presented, token);
    }
    forall token | token in t.stored ensures token in s.stored && !IssuedSince(t, token, t.epoch) {
      WithoutTokenMember(s.stored, presented, token);
      assert s.issuedIn[token] <= s.epoch;
    }
  }

  /** So is a logout between a login's read and its write: all that was read is stored again. */
  lemma LoginUndoesALogout(s: Race, r: RequestId, added: Token)
    requires RevocationHolds(s) && SnapshotsHold(s)
    ensures var t := Run(Perform, s, [Read(r), WriteCleared, WriteAdded(r, added)]);
            && t.stored == s.stored + [added]
            && (RevocationHolds(t) <==> forall token :: token in s.stored ==> token == added)
  {
    var accesses := [Read(r), WriteCleared];
    RunAppend(Perform, s, [], Read(r));
    RunAppend(Perform, s, [Read(r)], WriteCleared);
    RunAppend(Perform, s, accesses, WriteAdded(r, added));
    assert [] + [Read(r)] == [Read(r)] && [Read(r)] + [WriteCleared] == accesses;
    assert accesses + [WriteAdded(r, added)] == [Read(r), WriteCleared, WriteAdded(r, added)];
    var u := Run(Perform, s, accesses);
    assert RevocationHolds(u) && u.snapshots[r] == s.stored && u.epoch == s.epoch + 1;
    PerformKeepsIffLive(u, WriteAdded(r, added));
    forall token | token in s.stored && token != added ensures !IssuedSince(u, token, u.epoch) {
      assert Carries(u, WriteAdded(r, added), token);
      assert u.issuedIn[token] <= s.epoch;
    }
  }

  /** The access leaves the token where it is: a write keeps it only if its request has read it, or adds it. */
  predicate Retains(s: Race, a: Access, token: Token) {
    match a
    case Read(_) => true
    case WriteAdded(r, added) => r in s.snapshots ==> token in s.snapshots[r] || token == added
    case WriteRemoved(r, removed) => r in s.snapshots ==> token in s.snapshots[r] && token != removed
    case WriteCleared => false
  }

  lemma PerformRetainsIff(s: Race, a: Access, token: Token)
    requires token in s.stored
    ensures token in Perform(s, a).stored <==> Retains(s, a, token)
  {
    if a.WriteRemoved? && a.request in s.snapshots {
      WithoutTokenMember(s.snapshots[a.request], a.token, token);
    }
  }

  /**
   In any interleaving, a stored token stays stored at every point if and only if no logout comes and every
   write is of a request that had read the token and does not remove it, or adds it again.
   */
  lemma StaysStoredIff(s: Race, accesses: seq<Access>, token: Token)
    requires token in s.stored
    ensures (forall k :: 0 <= k <= |accesses| ==> token in Run(Perform, s, accesses[..k]).stored)
            <==> (forall k :: 0 <= k < |accesses| ==> Retains(Run(Perform, s, accesses[..k]), accesses[k], token))
  {
    var stored := (t: Race) => token in t.stored;
    var retains := (t: Race, a: Access) => Retains(t, a, token);
    forall t, a | stored(t) ensures stored(Perform(t, a)) <==> retains(t, a) {
      PerformRetainsIff(t, a, token);
    }
    HoldsThroughoutIff(Perform, _ => true, stored, retains, s, accesses);
  }

  /** Of two logins that both read before either writes, only the later writer's token is stored. */
  lemma LaterLoginWins(s: Race, a: RequestId, b: RequestId, first: Token, second: Token)
    requires a != b
    ensures var t := Run(Perform, s, [Read(a), Read(b), WriteAdded(a, first), WriteAdded(b, second)]);
            && t.stored == s.stored + [second]
            && (first in t.stored <==> first in s.stored || first == second)
  {
    RunAppend(Perform, s, [], Read(a));
    RunAppend(Perform, s, [Read(a)], Read(b));
    RunAppend(Perform, s, [Read(a), Read(b)], WriteAdded(a, first));
    RunAppend(Perform, s, [Read(a), Read(b), WriteAdded(a, first)], WriteAdded(b, second));
    assert [] + [Read(a)] == [Read(a)];
    assert [Read(a), Read(b), WriteAdded(a, first)] + [WriteAdded(b, second)]
        == [Read(a), Read(b), WriteAdded(a, first), WriteAdded(b, second)];
  }
}
