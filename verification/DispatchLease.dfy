/** Which signed dispatch lease is current: the issuance check over an execution's ordered events. */
module DispatchLease {
  import opened FixedPoint
  import opened Json

  const ISSUED := "DispatchLeaseIssued"
  const NORMALIZED := "ParametersNormalized"
  const MAX_LEASE_SECONDS := 300

  datatype Record = Record(sequence: int, name: string, data: Json)

  /** The claims that the issuance event must repeat. */
  datatype Claims = Claims(
    nonce: string, keyId: string, keyVersion: int, streamVersion: int, audience: string, expiresAt: string,
    envelopeVersion: int)

  function Expected(c: Claims): Json {
    Obj(map[
      "nonce" := Str(c.nonce), "key_id" := Str(c.keyId), "key_version" := Int(c.keyVersion),
      "stream_version" := Int(c.streamVersion), "audience" := Str(c.audience), "expires_at" := Str(c.expiresAt),
      "envelope_version" := Int(c.envelopeVersion)])
  }

  ghost predicate Ordered(events: seq<Record>) {
    forall i, j | 0 <= i < j < |events| :: events[i].sequence < events[j].sequence
  }

  predicate Issues(e: Record, nonce: string) { e.name == ISSUED && e.data.Get("nonce") == Str(nonce) }

  /** The first event that issues the nonce. */
  function FirstIssue(events: seq<Record>, nonce: string): (r: Option<nat>)
    ensures r.Some? ==> r.value < |events| && Issues(events[r.value], nonce)
    ensures r.Some? ==> forall i | 0 <= i < r.value :: !Issues(events[i], nonce)
    ensures r.None? ==> forall i | 0 <= i < |events| :: !Issues(events[i], nonce)
  {
    if events == [] then None
    else if Issues(events[0], nonce) then Some(0)
    else
      match FirstIssue(events[1..], nonce)
      case None => None
      case Some(k) => Some(k + 1)
  }

  /** `_issuance_event`: the record that proves the claims current, if there is one. */
  function IssuanceEvent(events: seq<Record>, c: Claims): Option<Record> {
    match FirstIssue(events, c.nonce)
    case None => None
    case Some(k) =>
      var e := events[k];
      if && e.data == Expected(c)
         && e.sequence == c.streamVersion + 1
         && (forall i | 0 <= i < |events| :: events[i].sequence <= e.sequence)
         && exists i | 0 <= i < |events| :: events[i].sequence == c.streamVersion && events[i].name == NORMALIZED
      then Some(e) else None
  }

  ghost predicate Current(events: seq<Record>, c: Claims) { IssuanceEvent(events, c).Some? }

  lemma {:induction false} ExpectedInjective(c: Claims, d: Claims)
    requires Expected(c) == Expected(d)
    ensures c == d
  {
    var f, g := Expected(c).fields, Expected(d).fields;
    assert f["nonce"] == g["nonce"] && f["key_id"] == g["key_id"] && f["key_version"] == g["key_version"];
    assert f["stream_version"] == g["stream_version"] && f["audience"] == g["audience"];
    assert f["expires_at"] == g["expires_at"] && f["envelope_version"] == g["envelope_version"];
  }

  /** Current claims are proved by the last event, directly after the parameters were normalized. */
  lemma {:induction false} CurrentIsLast(events: seq<Record>, c: Claims)
    requires Ordered(events) && Current(events, c)
    ensures var n := |events|;
            && 2 <= n && IssuanceEvent(events, c) == Some(events[n - 1]) && events[n - 1].data == Expected(c)
            && events[n - 2].name == NORMALIZED && events[n - 2].sequence == c.streamVersion
  {
    var n := |events|;
    var k := FirstIssue(events, c.nonce).value;
    assert k == n - 1 by {
      assert events[n - 1].sequence <= events[k].sequence;
    }
    var i :| 0 <= i < n && events[i].sequence == c.streamVersion && events[i].name == NORMALIZED;
    assert i < n - 1;
    assert forall j | 0 <= j < n - 2 :: events[j].sequence < events[n - 2].sequence;
    assert i == n - 2;
  }

  const CLAIM_NAMES := {
    "nonce", "key_id", "key_version", "stream_version", "audience", "expires_at", "envelope_version"}

  /** The event data repeats the claims, each under its own name, and says nothing else. */
  predicate Repeats(data: Json, c: Claims) {
    && data.Obj? && data.fields.Keys == CLAIM_NAMES
    && data.Get("nonce") == Str(c.nonce) && data.Get("key_id") == Str(c.keyId)
    && data.Get("key_version") == Int(c.keyVersion) && data.Get("stream_version") == Int(c.streamVersion)
    && data.Get("audience") == Str(c.audience) && data.Get("expires_at") == Str(c.expiresAt)
    && data.Get("envelope_version") == Int(c.envelopeVersion)
  }

  lemma {:induction false} ExpectedRepeats(data: Json, c: Claims)
    ensures data == Expected(c) <==> Repeats(data, c)
  {
    if Repeats(data, c) { assert data.fields == Expected(c).fields; }
  }

  /**
   Claims are current exactly when the ledger ends in the normalized parameters and then the first event that
   issues the nonce, under the next sequence, with data that repeats the claims.
   */
  lemma {:induction false} CurrentExactly(events: seq<Record>, c: Claims)
    requires Ordered(events)
    ensures var n := |events|;
            Current(events, c) <==>
            && 2 <= n && events[n - 2].name == NORMALIZED && events[n - 2].sequence == c.streamVersion
            && events[n - 1].name == ISSUED && events[n - 1].sequence == c.streamVersion + 1
            && Repeats(events[n - 1].data, c)
            && forall i | 0 <= i < n - 1 :: !(events[i].name == ISSUED && events[i].data.Get("nonce") == Str(c.nonce))
  {
    var n := |events|;
    if Current(events, c) {
      CurrentIsLast(events, c);
      ExpectedRepeats(events[n - 1].data, c);
    }
    if 2 <= n && Repeats(events[n - 1].data, c) && events[n - 1].name == ISSUED {
      ExpectedRepeats(events[n - 1].data, c);
      assert Issues(events[n - 1], c.nonce);
    }
  }

  /** In every ledger state at most one set of claims, and so at most one nonce, is current. */
  lemma {:induction false} OneCurrentLease(events: seq<Record>, c: Claims, d: Claims)
    requires Ordered(events) && Current(events, c) && Current(events, d)
    ensures c == d
  {
    CurrentIsLast(events, c);
    CurrentIsLast(events, d);
    ExpectedInjective(c, d);
  }

  lemma {:induction false} FirstIssueStays(events: seq<Record>, more: seq<Record>, nonce: string)
    requires FirstIssue(events, nonce).Some?
    ensures FirstIssue(events + more, nonce) == FirstIssue(events, nonce)
  {
    var k := FirstIssue(events, nonce).value;
    var all := events + more;
    assert all[k] == events[k];
    assert forall i | 0 <= i < k :: all[i] == events[i];
    var r := FirstIssue(all, nonce);
    assert r.Some? by { assert Issues(all[k], nonce); }
  }

  /**
   Once any event is appended, a nonce that was current never passes again, in any continuation of
   the ledger and under any claims, even when a later event issues the same nonce.
   */
  lemma {:induction false} NeverCurrentAgain(events: seq<Record>, more: seq<Record>, c: Claims, d: Claims)
    requires Ordered(events + more) && Current(events, c) && more != [] && d.nonce == c.nonce
    ensures !Current(events + more, d)
  {
    var all, k := events + more, FirstIssue(events, c.nonce).value;
    FirstIssueStays(events, more, c.nonce);
    assert all[k] == events[k] && all[|events|] == more[0];
    assert all[k].sequence < all[|events|].sequence;
  }

  // ----- Lifetime -----

  /** `_lease_times`, in seconds. */
  predicate Timely(issued: int, expires: int, now: int) {
    issued <= now < expires && 0 < expires - issued <= MAX_LEASE_SECONDS
  }

  /** What `validate_secret_resolution_dispatch` asks of the lease itself; the issued time is in no event. */
  ghost predicate Authorizes(parse: string -> int, events: seq<Record>, c: Claims, issued: int, now: int) {
    Timely(issued, parse(c.expiresAt), now) && Current(events, c)
  }

  /**
   Two authorizations under one nonce saw the same ledger and the same claims, less than five minutes
   apart, whatever issued times their leases state.
   */
  lemma {:induction false} OneWindowPerNonce(parse: string -> int, events: seq<Record>, more: seq<Record>, c: Claims,
                                             d: Claims, issued: int, issued': int, now: int, later: int)
    requires Ordered(events + more) && d.nonce == c.nonce
    requires Authorizes(parse, events, c, issued, now) && Authorizes(parse, events + more, d, issued', later)
    ensures more == [] && c == d && -MAX_LEASE_SECONDS < later - now < MAX_LEASE_SECONDS
  {
    if more != [] {
      NeverCurrentAgain(events, more, c, d);
      assert false;
    }
    assert events + more == events;
    OneCurrentLease(events, c, d);
  }
}
