/**
 * The prediction-session tracker: an in-memory map from a session id derived
 * from the caller to a record saying whether the caller made a prediction and
 * whether it confirmed the disposal since. Confirming requires a recent
 * prediction and can happen once per prediction; records expire after an hour.
 *
 * The map-level functions below specify each operation; the class
 * `PredictionSessions` holds the map and performs the operations in place,
 * with the clock passed in as `now` (milliseconds).
 */
module PredictionSession {
  import opened Basics
  import Utf8
  import Base64

  /** Age in milliseconds beyond which a record is evicted (one hour). */
  const SessionTimeout: int := 60 * 60 * 1000

  /** An authenticated caller; `id` is the text `req.user.id` renders to. */
  datatype User = User(id: string)

  /**
   * The parts of an Express request the tracker reads. A field is `None` when
   * the request lacks it; an empty string is present but falsy.
   */
  datatype Request = Request(
    user: Option<User>,
    ip: Option<string>,
    remoteAddress: Option<string>,
    userAgent: Option<string>)

  /** JavaScript's `v || fallback` for a value that is a string or undefined. */
  function OrElse(v: Option<string>, fallback: string): (r: string)
    ensures r == fallback || (v.Some? && r == v.value && r != "")
    ensures v.Some? && v.value != "" ==> r == v.value
  {
    if v.Some? && v.value != "" then v.value else fallback
  }

  /** A header or address that is there and not empty, so that `||` keeps it. */
  predicate Present(v: Option<string>) {
    v.Some? && v.value != ""
  }

  /**
   * The text an anonymous caller is known by: its address followed by its
   * user agent. The address is `ip` if present, else `remoteAddress` if
   * present, else `unknown`; the user agent is `unknown` when absent.
   */
  function AnonymousKey(req: Request): (r: string)
    ensures Present(req.ip) ==> |req.ip.value| <= |r| && r[..|req.ip.value|] == req.ip.value
    ensures !Present(req.ip) && Present(req.remoteAddress) ==>
      |req.remoteAddress.value| <= |r| && r[..|req.remoteAddress.value|] == req.remoteAddress.value
    ensures !Present(req.ip) && !Present(req.remoteAddress) ==> 7 <= |r| && r[..7] == "unknown"
    ensures Present(req.userAgent) ==>
      |req.userAgent.value| <= |r| && r[|r| - |req.userAgent.value|..] == req.userAgent.value
    ensures !Present(req.userAgent) ==> 7 <= |r| && r[|r| - 7..] == "unknown"
    ensures |r| ==
      (if Present(req.ip) then |req.ip.value|
       else if Present(req.remoteAddress) then |req.remoteAddress.value| else 7)
      + (if Present(req.userAgent) then |req.userAgent.value| else 7)
    ensures 2 <= |r|
  {
    OrElse(req.ip, OrElse(req.remoteAddress, "unknown")) + OrElse(req.userAgent, "unknown")
  }

  /**
   * The session id of a request: `user_` and the user id for an
   * authenticated caller, `anon_` and the base64 text of the UTF-8 key
   * otherwise. The prefix tells the two kinds apart.
   */
  function SessionId(req: Request): (r: string)
    ensures 5 <= |r|
    ensures r[..5] == "user_" <==> req.user.Some?
    ensures r[..5] == "anon_" <==> req.user.None?
    ensures req.user.Some? ==> r[5..] == req.user.value.id
  {
    if req.user.Some? then "user_" + req.user.value.id
    else "anon_" + Base64.Encode(Utf8.Encode(AnonymousKey(req)))
  }

  /**
   * An anonymous caller's id is `anon_` followed by the padded base64 text of
   * the UTF-8 bytes of its key; a missing or empty address or user agent
   * reads as `unknown`.
   */
  lemma AnonymousSessionId(req: Request)
    requires req.user.None?
    ensures SessionId(req)[..5] == "anon_"
    ensures SessionId(req)[5..] == Base64.Encode(Utf8.Encode(AnonymousKey(req)))
    ensures Base64.IsPadded(SessionId(req)[5..])
    ensures (req.ip.None? || req.ip == Some("")) && (req.remoteAddress.None? || req.remoteAddress == Some(""))
      ==> AnonymousKey(req)[..7] == "unknown"
    ensures req.userAgent.None? || req.userAgent == Some("")
      ==> AnonymousKey(req)[|AnonymousKey(req)| - 7..] == "unknown"
  {
    Base64.EncodeAlphabet(Utf8.Encode(AnonymousKey(req)));
  }

  /** No authenticated caller shares an id with an anonymous one. */
  lemma UserAndAnonymousDisjoint(a: Request, b: Request)
    requires a.user.Some? && b.user.None?
    ensures SessionId(a) != SessionId(b)
  {
    assert SessionId(a)[0] == 'u' && SessionId(b)[0] == 'a';
  }

  /** Authenticated callers share an id exactly when they share a user id. */
  lemma UserSessionIdInjective(a: Request, b: Request)
    requires a.user.Some? && b.user.Some?
    ensures SessionId(a) == SessionId(b) <==> a.user.value.id == b.user.value.id
  {
  }

  /**
   * Anonymous callers share an id exactly when their address and user agent,
   * written one after the other, are the same text.
   */
  lemma AnonymousSessionIdInjective(a: Request, b: Request)
    requires a.user.None? && b.user.None?
    ensures SessionId(a) == SessionId(b) <==> AnonymousKey(a) == AnonymousKey(b)
  {
    if SessionId(a) == SessionId(b) {
      AnonymousSessionId(a);
      AnonymousSessionId(b);
      Base64.EncodeInjective(Utf8.Encode(AnonymousKey(a)), Utf8.Encode(AnonymousKey(b)));
      Utf8.EncodeInjective(AnonymousKey(a), AnonymousKey(b));
    }
  }

  /**
   * The key does not separate the address from the user agent, so two
   * different anonymous callers can share a session id.
   */
  lemma AnonymousCallersCanCollide()
    ensures var a := Request(None, Some("10.0.0.1"), None, Some("2X"));
            var b := Request(None, Some("10.0.0.12"), None, Some("X"));
            a != b && SessionId(a) == SessionId(b)
  {
    var a := Request(None, Some("10.0.0.1"), None, Some("2X"));
    var b := Request(None, Some("10.0.0.12"), None, Some("X"));
    assert AnonymousKey(a) == "10.0.0.12X" == AnonymousKey(b);
    AnonymousSessionIdInjective(a, b);
  }

  /** The state of one session. */
  datatype SessionRecord = SessionRecord(timestamp: int, hasPrediction: bool, disposalConfirmed: bool)

  /** The tracker's map from session id to record. */
  type Sessions = map<string, SessionRecord>

  /** The record a prediction leaves behind. */
  function Fresh(now: int): SessionRecord {
    SessionRecord(now, true, false)
  }

  /** Every record in the map carries a prediction. */
  ghost predicate AllPredicted(m: Sessions) {
    forall id :: id in m ==> m[id].hasPrediction
  }

  /** The map after a prediction for `id` at time `now`. */
  function Tracked(m: Sessions, id: string, now: int): (m': Sessions)
    ensures m'.Keys == m.Keys + {id}
    ensures m'[id].timestamp == now && m'[id].hasPrediction && !m'[id].disposalConfirmed
    ensures forall k :: k in m && k != id ==> m'[k] == m[k]
    ensures AllPredicted(m) ==> AllPredicted(m')
  {
    m[id := Fresh(now)]
  }

  /**
   * Whether the caller with session id `id` may confirm a disposal now: never
   * without a record, and while every record carries a prediction, exactly
   * when its record is not yet confirmed.
   */
  predicate CanConfirm(m: Sessions, id: string)
    ensures id !in m ==> !CanConfirm(m, id)
    ensures AllPredicted(m) ==> (CanConfirm(m, id) <==> id in m && !m[id].disposalConfirmed)
  {
    id in m && m[id].hasPrediction && !m[id].disposalConfirmed
  }

  /** The map after a disposal confirmation for `id`; unchanged if `id` has no record. */
  function Confirmed(m: Sessions, id: string): (m': Sessions)
    ensures m'.Keys == m.Keys
    ensures id in m ==>
      m'[id].disposalConfirmed && m'[id].timestamp == m[id].timestamp && m'[id].hasPrediction == m[id].hasPrediction
    ensures forall k :: k in m && k != id ==> m'[k] == m[k]
    ensures id !in m ==> m' == m
    ensures !CanConfirm(m', id)
    ensures AllPredicted(m) ==> AllPredicted(m')
  {
    if id in m then m[id := m[id].(disposalConfirmed := true)] else m
  }

  /** A record is stale once its age exceeds the timeout. */
  predicate Expired(r: SessionRecord, now: int) {
    now - r.timestamp > SessionTimeout
  }

  /** The map after the periodic sweep at time `now`. */
  function Swept(m: Sessions, now: int): (m': Sessions)
    ensures forall k :: k in m' <==> k in m && !Expired(m[k], now)
    ensures forall k :: k in m' ==> m'[k] == m[k]
    ensures m'.Keys <= m.Keys
    ensures AllPredicted(m) ==> AllPredicted(m')
  {
    map k | k in m && !Expired(m[k], now) :: m[k]
  }

  /** The monitoring snapshot `getSessionStats` returns. */
  datatype SessionStats = SessionStats(total: nat, withPredictions: nat, confirmed: nat)

  function PredictedIds(m: Sessions): set<string> {
    set k | k in m && m[k].hasPrediction
  }

  function ConfirmedIds(m: Sessions): set<string> {
    set k | k in m && m[k].disposalConfirmed
  }

  /** The snapshot of a map: its size and how many records carry each flag. */
  function Stats(m: Sessions): (s: SessionStats)
    ensures s.total == |m|
    ensures s.withPredictions <= s.total && s.confirmed <= s.total
  {
    SubsetSize(PredictedIds(m), m.Keys);
    SubsetSize(ConfirmedIds(m), m.Keys);
    SessionStats(|m|, |PredictedIds(m)|, |ConfirmedIds(m)|)
  }

  lemma {:induction false} SubsetSize<T>(a: set<T>, b: set<T>)
    requires a <= b
    ensures |a| <= |b|
  {
    if a != {} {
      var x :| x in a;
      SubsetSize(a - {x}, b - {x});
    }
  }

  /**
   * Since every record carries a prediction, the snapshot counts every record
   * as predicted, and confirmed records are among the predicted ones.
   */
  lemma StatsOfPredicted(m: Sessions)
    requires AllPredicted(m)
    ensures Stats(m).withPredictions == Stats(m).total
    ensures Stats(m).confirmed <= Stats(m).withPredictions
  {
    assert PredictedIds(m) == m.Keys;
  }

  /** A prediction makes confirmation possible. */
  lemma TrackEnablesConfirm(m: Sessions, id: string, now: int)
    ensures CanConfirm(Tracked(m, id, now), id)
  {
  }

  /**
   * Confirming twice changes nothing the second time, and confirming one
   * session leaves every other session's ability to confirm as it was.
   */
  lemma ConfirmIdempotent(m: Sessions, id: string, other: string)
    ensures Confirmed(Confirmed(m, id), id) == Confirmed(m, id)
    ensures other != id ==> (CanConfirm(Confirmed(m, id), other) <==> CanConfirm(m, other))
  {
  }

  /**
   * A prediction older than the timeout is gone after a sweep, while one
   * exactly as old as the timeout survives it.
   */
  lemma SweepBoundary(m: Sessions, id: string, t: int)
    ensures !CanConfirm(Swept(Tracked(m, id, t), t + SessionTimeout + 1), id)
    ensures CanConfirm(Swept(Tracked(m, id, t), t + SessionTimeout), id)
  {
  }

  /** One call into the tracker, by session id. */
  datatype Op =
    | Track(id: string, now: int)
    | Confirm(id: string)
    | Sweep(now: int)

  function Apply(m: Sessions, op: Op): Sessions {
    match op
    case Track(id, now) => Tracked(m, id, now)
    case Confirm(id) => Confirmed(m, id)
    case Sweep(now) => Swept(m, now)
  }

  /** The map after a sequence of calls. */
  function Run(m: Sessions, ops: seq<Op>): Sessions
    decreases |ops|
  {
    if ops == [] then m else Run(Apply(m, ops[0]), ops[1..])
  }

  /** Every reachable map has a prediction in every record. */
  lemma {:induction false} RunKeepsAllPredicted(m: Sessions, ops: seq<Op>)
    requires AllPredicted(m)
    ensures AllPredicted(Run(m, ops))
    decreases |ops|
  {
    if ops != [] {
      RunKeepsAllPredicted(Apply(m, ops[0]), ops[1..]);
    }
  }

  /** How many predictions for `id` a sequence of calls makes. */
  function Predictions(ops: seq<Op>, id: string): nat
    decreases |ops|
  {
    if ops == [] then 0
    else (if ops[0].Track? && ops[0].id == id then 1 else 0) + Predictions(ops[1..], id)
  }

  /**
   * How many confirmations for `id` pass the `CanConfirm` check that guards
   * the disposal reward, starting from map `m`.
   */
  function Granted(m: Sessions, ops: seq<Op>, id: string): nat
    decreases |ops|
  {
    if ops == [] then 0
    else
      (if ops[0] == Confirm(id) && CanConfirm(m, id) then 1 else 0)
      + Granted(Apply(m, ops[0]), ops[1..], id)
  }

  function Indicator(b: bool): nat {
    if b then 1 else 0
  }

  /**
   * Each granted confirmation is paid for by a prediction: granted
   * confirmations, plus one if a confirmation is still open at the end, never
   * exceed the predictions made, plus one if one was open at the start.
   */
  lemma {:induction false} GrantedBoundedByPredictions(m: Sessions, ops: seq<Op>, id: string)
    ensures Granted(m, ops, id) + Indicator(CanConfirm(Run(m, ops), id))
      <= Indicator(CanConfirm(m, id)) + Predictions(ops, id)
    decreases |ops|
  {
    if ops != [] {
      var m' := Apply(m, ops[0]);
      GrantedBoundedByPredictions(m', ops[1..], id);
      match ops[0]
      case Track(k, now) => {}
      case Confirm(k) => {}
      case Sweep(now) => {}
    }
  }

  /**
   * From an empty tracker, disposal is confirmed at most once per prediction,
   * and never for a session that made none.
   */
  lemma AtMostOneConfirmationPerPrediction(ops: seq<Op>, id: string)
    ensures Granted(map[], ops, id) <= Predictions(ops, id)
    ensures Predictions(ops, id) == 0 ==> Granted(map[], ops, id) == 0 && !CanConfirm(Run(map[], ops), id)
  {
    GrantedBoundedByPredictions(map[], ops, id);
  }

  /** The tracker: the module-level map of the source, owned by one object. */
  class PredictionSessions {
    var sessions: Sessions

    /** Every record was made by a prediction, and nothing clears that flag. */
    ghost predicate Valid()
      reads this
    {
      AllPredicted(sessions)
    }

    constructor ()
      ensures Valid() && sessions == map[]
    {
      sessions := map[];
    }

    /** Records a successful prediction for the caller and returns its session id. */
    method TrackPrediction(req: Request, now: int) returns (id: string)
      requires Valid()
      modifies this
      ensures Valid()
      ensures id == SessionId(req)
      ensures sessions == Tracked(old(sessions), id, now)
    {
      id := SessionId(req);
      sessions := sessions[id := SessionRecord(now, true, false)];
    }

    /** Whether the caller has a prediction it has not yet confirmed a disposal for. */
    method CanConfirmDisposal(req: Request) returns (ok: bool)
      ensures SessionId(req) !in sessions ==> !ok
      ensures ok == CanConfirm(sessions, SessionId(req))
    {
      var id := SessionId(req);
      if id !in sessions {
        return false;
      }
      var data := sessions[id];
      ok := data.hasPrediction && !data.disposalConfirmed;
    }

    /** Marks the caller's disposal as confirmed; false when it has no record. */
    method ConfirmDisposal(req: Request) returns (ok: bool)
      requires Valid()
      modifies this
      ensures Valid()
      ensures ok <==> SessionId(req) in old(sessions)
      ensures sessions == Confirmed(old(sessions), SessionId(req))
    {
      var id := SessionId(req);
      if id in sessions {
        var data := sessions[id];
        data := data.(disposalConfirmed := true);
        sessions := sessions[id := data];
        return true;
      }
      return false;
    }

    /** The body of the periodic cleanup: deletes every stale record, one key at a time. */
    method Sweep(now: int)
      requires Valid()
      modifies this
      ensures Valid()
      ensures sessions == Swept(old(sessions), now)
    {
      var pending := sessions.Keys;
      while pending != {}
        invariant pending <= old(sessions).Keys
        invariant forall k :: k in sessions <==> k in old(sessions) && (k in pending || !Expired(old(sessions)[k], now))
        invariant forall k :: k in sessions ==> sessions[k] == old(sessions)[k]
        decreases pending
      {
        var k :| k in pending;
        if now - sessions[k].timestamp > SessionTimeout {
          sessions := sessions - {k};
        }
        pending := pending - {k};
      }
    }

    /** Counts the records and how many of them carry each flag. */
    method GetSessionStats() returns (stats: SessionStats)
      ensures stats == Stats(sessions)
      ensures Valid() ==> stats.withPredictions == stats.total && stats.confirmed <= stats.total
    {
      var total := |sessions|;
      var withPredictions, confirmed := 0, 0;
      var pending := sessions.Keys;
      while pending != {}
        invariant pending <= sessions.Keys
        invariant withPredictions == |PredictedIds(sessions) - pending|
        invariant confirmed == |ConfirmedIds(sessions) - pending|
        decreases pending
      {
        var k :| k in pending;
        var data := sessions[k];
        if data.hasPrediction {
          assert PredictedIds(sessions) - (pending - {k}) == (PredictedIds(sessions) - pending) + {k};
          withPredictions := withPredictions + 1;
        } else {
          assert PredictedIds(sessions) - (pending - {k}) == PredictedIds(sessions) - pending;
        }
        if data.disposalConfirmed {
          assert ConfirmedIds(sessions) - (pending - {k}) == (ConfirmedIds(sessions) - pending) + {k};
          confirmed := confirmed + 1;
        } else {
          assert ConfirmedIds(sessions) - (pending - {k}) == ConfirmedIds(sessions) - pending;
        }
        pending := pending - {k};
      }
      stats := SessionStats(total, withPredictions, confirmed);
      if Valid() {
        StatsOfPredicted(sessions);
      }
    }
  }
}
