/**
 * Creating API keys, with a bootstrap token that works once. Requests interleave statement by
 * statement and may stop anywhere; the flag row in the database is read under a row lock.
 */
module Bootstrap {
  import opened Support

  type RequestId = nat
  type KeyId = nat
  type Moment = nat

  /** What the bearer token of a request turns out to be. */
  datatype Token = BootstrapToken | AdminKey | OtherKey | UnknownToken

  /** The body of a request; scopes default to admin. */
  datatype Body = Body(scopes: Option<set<string>>, expires: Option<Moment>)

  /** A row of the api_keys table: who created it, and what it is good for. */
  datatype Key = Key(creator: Token, scopes: set<string>, expires: Option<Moment>)

  datatype Phase = Arrived | Authenticated | Validated | Written(key: KeyId) | Committed(key: KeyId)

  datatype Request = Request(token: Token, body: Body, phase: Phase)

  /** The key a request asks for. */
  function KeyOf(token: Token, body: Body): Key {
    Key(token, if body.scopes.Some? then body.scopes.value else {"admin"}, body.expires)
  }

  datatype Outcome = Unauthorized | Forbidden | Unprocessable | Created(key: KeyId) | Aborted

  /** What authentication decides: wait for the row lock, accept, or refuse. */
  datatype Decision = Wait | Accept | Refuse(outcome: Outcome)

  function Verdict(token: Token, locked: bool, consumed: bool): Decision {
    match token
    case BootstrapToken => if locked then Wait else if consumed then Refuse(Unauthorized) else Accept
    case AdminKey => Accept
    case OtherKey => Refuse(Forbidden)
    case UnknownToken => Refuse(Unauthorized)
  }

  predicate BodyValid(body: Body, now: Moment) {
    && (body.scopes.Some? ==> body.scopes.value <= {"admin", "ingest", "query"})
    && (body.expires.Some? ==> body.expires.value > now)
  }

  datatype Step =
    | Arrive(id: RequestId, token: Token, body: Body) | Authenticate(id: RequestId)
    | Validate(id: RequestId, now: Moment)
    | Write(id: RequestId, key: KeyId) | Commit(id: RequestId) | Cache(id: RequestId) | Abort(id: RequestId)

  /** Everything a request can read or write. */
  datatype State = State(consumed: Option<string>, keys: map<KeyId, Key>, holder: Option<RequestId>,
                         requests: map<RequestId, Request>, outcomes: map<RequestId, Outcome>,
                         cached: map<KeyId, Key>)

  function Ended(s: State, id: RequestId, outcome: Outcome): State {
    s.(requests := s.requests - {id}, outcomes := s.outcomes[id := outcome],
       holder := if s.holder == Some(id) then None else s.holder)
  }

  function Moved(s: State, id: RequestId, phase: Phase): State
    requires id in s.requests
  {
    s.(requests := s.requests[id := s.requests[id].(phase := phase)])
  }

  /** The protocol: what one statement of one request does. */
  function Next(s: State, step: Step): State {
    match step
    case Arrive(id, token, body) =>
      if id in s.requests then s else s.(requests := s.requests[id := Request(token, body, Arrived)])
    case Authenticate(id) =>
      if !(id in s.requests && s.requests[id].phase == Arrived) then s
      else
        var token := s.requests[id].token;
        (match Verdict(token, s.holder.Some?, s.consumed.None? || s.consumed.value == "true")
         case Wait => s
         case Refuse(outcome) => Ended(s, id, outcome)
         case Accept => Moved(s, id, Authenticated).(holder := if token.BootstrapToken? then Some(id) else s.holder))
    case Validate(id, now) =>
      if !(id in s.requests && s.requests[id].phase == Authenticated) then s
      else if BodyValid(s.requests[id].body, now) then Moved(s, id, Validated)
      else Ended(s, id, Unprocessable)
    case Write(id, key) =>
      if id in s.requests && s.requests[id].phase == Validated then Moved(s, id, Written(key)) else s
    case Commit(id) =>
      if !(id in s.requests && s.requests[id].phase.Written?) then s
      else
        var r := s.requests[id];
        if r.phase.key in s.keys then Ended(s, id, Aborted)
        else
          var added := Moved(s, id, Committed(r.phase.key)).(keys := s.keys[r.phase.key := KeyOf(r.token, r.body)]);
          if r.token.BootstrapToken? then added.(consumed := Some("true"), holder := None) else added
    case Cache(id) =>
      if id in s.requests && s.requests[id].phase.Committed? then
        var r := s.requests[id];
        Ended(s, id, Created(r.phase.key)).(cached := s.cached[r.phase.key := KeyOf(r.token, r.body)])
      else s
    case Abort(id) => if id in s.requests then Ended(s, id, Aborted) else s
  }

  function After(s: State, steps: seq<Step>): State {
    if steps == [] then s else Next(After(s, steps[..|steps| - 1]), steps[|steps| - 1])
  }

  /** The statements of one request with no other in between. */
  function Alone(s: State, id: RequestId, token: Token, body: Body, now: Moment, key: KeyId): State {
    var validated := Next(Next(Next(s, Arrive(id, token, body)), Authenticate(id)), Validate(id, now));
    Next(Next(Next(validated, Write(id, key)), Commit(id)), Cache(id))
  }

  /** A request no longer in flight moves nothing. */
  lemma {:induction false} NotInFlight(s: State, id: RequestId, now: Moment, key: KeyId)
    requires id !in s.requests
    ensures Next(s, Validate(id, now)) == s && Next(s, Write(id, key)) == s && Next(s, Commit(id)) == s
    ensures Next(s, Cache(id)) == s
  {
  }

  lemma {:induction false} AloneStarts(s: State, id: RequestId, token: Token, body: Body)
    requires s.holder.None? && id !in s.requests
    ensures var verdict := Verdict(token, false, s.consumed.None? || s.consumed.value == "true");
      Next(Next(s, Arrive(id, token, body)), Authenticate(id))
      == if verdict.Refuse? then s.(outcomes := s.outcomes[id := verdict.outcome])
         else s.(requests := s.requests[id := Request(token, body, Authenticated)],
                 holder := if token.BootstrapToken? then Some(id) else None)
  {
    assert Next(s, Arrive(id, token, body)).requests - {id} == s.requests;
  }

  lemma {:induction false} AloneFinishes(s: State, id: RequestId, key: KeyId)
    requires id in s.requests && s.requests[id].phase.Validated? && key !in s.keys
    requires s.holder == if s.requests[id].token.BootstrapToken? then Some(id) else None
    ensures var token, row := s.requests[id].token, KeyOf(s.requests[id].token, s.requests[id].body);
      Next(Next(Next(s, Write(id, key)), Commit(id)), Cache(id))
      == s.(requests := s.requests - {id}, outcomes := s.outcomes[id := Created(key)], keys := s.keys[key := row],
            cached := s.cached[key := row], holder := None,
            consumed := if token.BootstrapToken? then Some("true") else s.consumed)
  {
    var s1 := Next(s, Write(id, key));
    var s2 := Next(s1, Commit(id));
    assert s2.requests == s.requests[id := s.requests[id].(phase := Committed(key))];
    assert s2.requests - {id} == s.requests - {id};
  }

  lemma {:induction false} AloneAnswers(s: State, id: RequestId, token: Token, body: Body, now: Moment, key: KeyId)
    requires s.holder.None? && id !in s.requests && key !in s.keys
    ensures var r := Alone(s, id, token, body, now, key);
      var verdict := Verdict(token, false, s.consumed.None? || s.consumed.value == "true");
      var outcome := if verdict.Refuse? then verdict.outcome
                     else if BodyValid(body, now) then Created(key) else Unprocessable;
      r == if outcome != Created(key) then s.(outcomes := s.outcomes[id := outcome])
           else s.(outcomes := s.outcomes[id := outcome], keys := s.keys[key := KeyOf(token, body)],
                   cached := s.cached[key := KeyOf(token, body)],
                   consumed := if token.BootstrapToken? then Some("true") else s.consumed)
  {
    hide KeyOf, Next, BodyValid;
    AloneStarts(s, id, token, body);
    var started := Next(Next(s, Arrive(id, token, body)), Authenticate(id));
    if Verdict(token, false, s.consumed.None? || s.consumed.value == "true").Refuse? {
      NotInFlight(started, id, now, key);
    } else {
      AloneValidates(s, started, id, token, body, now);
      if BodyValid(body, now) {
        AloneFinishes(Next(started, Validate(id, now)), id, key);
        assert s.requests[id := Request(token, body, Validated)] - {id} == s.requests;
      } else {
        NotInFlight(Next(started, Validate(id, now)), id, now, key);
      }
    }
  }

  lemma {:induction false} AloneValidates(s: State, started: State, id: RequestId, token: Token, body: Body,
      now: Moment)
    requires s.holder.None? && id !in s.requests
    requires started == s.(requests := s.requests[id := Request(token, body, Authenticated)],
                           holder := if token.BootstrapToken? then Some(id) else None)
    ensures Next(started, Validate(id, now))
         == if BodyValid(body, now) then started.(requests := s.requests[id := Request(token, body, Validated)])
            else s.(outcomes := s.outcomes[id := Unprocessable])
  {
    hide BodyValid;
    assert started.requests - {id} == s.requests;
    assert started.requests[id := Request(token, body, Validated)] == s.requests[id := Request(token, body, Validated)];
  }

  // ---- Where a committed key comes from ----

  /** A request in flight arrived, and what it went on to do it did in order. */
  ghost predicate Traced(steps: seq<Step>, id: RequestId, r: Request, a: nat, v: nat, w: nat, now: Moment) {
    && a < |steps| && steps[a] == Arrive(id, r.token, r.body)
    && (!r.phase.Arrived? ==> r.token == BootstrapToken || r.token == AdminKey)
    && (!r.phase.Arrived? && !r.phase.Authenticated? ==>
          && a < v < |steps| && steps[v] == Validate(id, now)
          && (r.body.scopes.Some? ==> r.body.scopes.value <= {"admin", "ingest", "query"})
          && (r.body.expires.Some? ==> r.body.expires.value > now))
    && (r.phase.Written? || r.phase.Committed? ==> v < w < |steps| && steps[w] == Write(id, r.phase.key))
  }

  /** How one statement moves a request that stays in flight. */
  lemma {:induction false} RequestMoves(s: State, step: Step, id: RequestId)
    requires id in Next(s, step).requests
    ensures id !in s.requests ==>
      step.Arrive? && step.id == id && Next(s, step).requests[id] == Request(step.token, step.body, Arrived)
    ensures id in s.requests ==>
      var was, r := s.requests[id], Next(s, step).requests[id];
      && r.token == was.token && r.body == was.body
      && (r.phase != was.phase ==>
            || (was.phase.Arrived? && r.phase.Authenticated? && (r.token.BootstrapToken? || r.token.AdminKey?))
            || (&& was.phase.Authenticated? && r.phase.Validated? && step == Validate(id, step.now)
                && (r.body.scopes.Some? ==> r.body.scopes.value <= {"admin", "ingest", "query"})
                && (r.body.expires.Some? ==> r.body.expires.value > step.now))
            || (was.phase.Validated? && r.phase.Written? && step == Write(id, r.phase.key))
            || (was.phase.Written? && r.phase == Committed(was.phase.key)))
  {
  }

  lemma {:induction false} KeyCommits(s: State, step: Step, key: KeyId)
    requires key in Next(s, step).keys
    ensures key in s.keys ==> Next(s, step).keys[key] == s.keys[key]
    ensures key !in s.keys ==>
      && step.Commit? && step.id in s.requests && s.requests[step.id].phase == Written(key)
      && Next(s, step).keys[key] == KeyOf(s.requests[step.id].token, s.requests[step.id].body)
  {
  }

  lemma {:induction false} TracedLonger(steps: seq<Step>, last: Step, id: RequestId, r: Request, a: nat, v: nat, w: nat,
      now: Moment)
    requires Traced(steps, id, r, a, v, w, now)
    ensures Traced(steps + [last], id, r, a, v, w, now)
  {
  }

  lemma {:induction false} RequestTraced(s: State, steps: seq<Step>, id: RequestId)
    returns (a: nat, v: nat, w: nat, now: Moment)
    requires s.requests == map[] && id in After(s, steps).requests
    ensures Traced(steps, id, After(s, steps).requests[id], a, v, w, now)
    decreases |steps|
  {
    hide Next;
    var front, last := steps[..|steps| - 1], steps[|steps| - 1];
    var before, after := After(s, front), After(s, steps);
    assert steps == front + [last];
    RequestMoves(before, last, id);
    if id in before.requests {
      a, v, w, now := RequestTraced(s, front, id);
      TracedLonger(front, last, id, before.requests[id], a, v, w, now);
      var was, phase := before.requests[id].phase, after.requests[id].phase;
      if was.Authenticated? && phase.Validated? {
        v, now := |front|, last.now;
      }
      if was.Validated? && phase.Written? {
        w := |front|;
      }
    } else {
      a, v, w, now := |front|, 0, 0, 0;
    }
  }

  /**
   * Every key a run commits was written for a request that arrived with the bootstrap token or an admin
   * key, and whose scopes and expiry were valid at its validation in between. It carries those scopes, admin
   * alone if the request named none, and that expiry.
   */
  lemma {:induction false} CommittedKeyIsValid(s: State, steps: seq<Step>, key: KeyId)
    returns (id: RequestId, body: Body, now: Moment, a: nat, v: nat, w: nat)
    requires s.requests == map[] && key in After(s, steps).keys && key !in s.keys
    ensures a < v < w < |steps| && steps[w] == Write(id, key) && steps[v] == Validate(id, now)
    ensures var row := After(s, steps).keys[key];
      && steps[a] == Arrive(id, row.creator, body) && (row.creator == BootstrapToken || row.creator == AdminKey)
      && row.scopes == (if body.scopes.Some? then body.scopes.value else {"admin"}) && row.expires == body.expires
      && row.scopes <= {"admin", "ingest", "query"} && (row.expires.Some? ==> row.expires.value > now)
    decreases |steps|
  {
    hide Next, Traced;
    var front, last := steps[..|steps| - 1], steps[|steps| - 1];
    var before := After(s, front);
    assert steps == front + [last];
    KeyCommits(before, last, key);
    if key in before.keys {
      id, body, now, a, v, w := CommittedKeyIsValid(s, front, key);
    } else {
      id := last.id;
      a, v, w, now := RequestTraced(s, front, id);
      body := before.requests[id].body;
      TracedWrites(front, id, before.requests[id], a, v, w, now);
    }
  }

  lemma {:induction false} TracedWrites(steps: seq<Step>, id: RequestId, r: Request, a: nat, v: nat, w: nat,
        now: Moment)
    requires Traced(steps, id, r, a, v, w, now) && r.phase.Written?
    ensures a < v < w < |steps| && steps[a] == Arrive(id, r.token, r.body)
    ensures steps[v] == Validate(id, now) && steps[w] == Write(id, r.phase.key)
    ensures r.token == BootstrapToken || r.token == AdminKey
    ensures var row := KeyOf(r.token, r.body);
      row.scopes <= {"admin", "ingest", "query"} && (row.expires.Some? ==> row.expires.value > now)
  {
  }

  // ---- What the statements do, spelt out ----

  /** A token of an arriving request: waits, is refused, or passes, on the bootstrap path with the row lock. */
  ghost predicate TokenDecided(s: State, r: State, id: RequestId) {
    id in s.requests && s.requests[id].phase == Arrived ==>
      match s.requests[id].token
      case BootstrapToken =>
        if s.holder.Some? then r == s
        else if s.consumed in {None, Some("true")}
        then id !in r.requests && id in r.outcomes && r.outcomes[id] == Unauthorized
        else id in r.requests && r.requests[id].phase == Authenticated && r.holder == Some(id)
      case AdminKey => id in r.requests && r.requests[id].phase == Authenticated && r.holder == s.holder
      case OtherKey => id !in r.requests && id in r.outcomes && r.outcomes[id] == Forbidden
      case UnknownToken => id !in r.requests && id in r.outcomes && r.outcomes[id] == Unauthorized
  }

  /** A body passes with known scopes and a future expiry, as far as it gives them; otherwise the request ends. */
  ghost predicate BodyDecided(s: State, r: State, id: RequestId, now: Moment) {
    id in s.requests && s.requests[id].phase == Authenticated ==>
      var body := s.requests[id].body;
      if && (body.scopes.Some? ==> body.scopes.value <= {"admin", "ingest", "query"})
         && (body.expires.Some? ==> body.expires.value > now)
      then id in r.requests && r.requests[id] == s.requests[id].(phase := Validated) && r.holder == s.holder
      else id !in r.requests && id in r.outcomes && r.outcomes[id] == Unprocessable && r.holder != Some(id)
  }

  /** A commit adds the requested key and, on the bootstrap path, sets the flag, unless the id is taken. */
  ghost predicate KeyCommitted(s: State, r: State, id: RequestId) {
    id in s.requests && s.requests[id].phase.Written? ==>
      var key, token, body := s.requests[id].phase.key, s.requests[id].token, s.requests[id].body;
      if key in s.keys then r.keys == s.keys && r.consumed == s.consumed && id !in r.requests
      else && r.keys == s.keys[key := Key(token, if body.scopes.Some? then body.scopes.value else {"admin"},
                                          body.expires)]
           && id in r.requests && r.requests[id].phase == Committed(key)
           && r.consumed == (if token == BootstrapToken then Some("true") else s.consumed)
  }

  /**
   * The answer to one undisturbed request. A token is accepted if it is an admin key's or, while the flag row
   * is there and not set, the bootstrap token; an accepted request gets its key exactly if its scopes are
   * known ones and its expiry is after now, as far as it gives them. Without a key nothing changes.
   */
  ghost predicate Answered(s: State, r: State, token: Token, body: Body, now: Moment, key: KeyId, outcome: Outcome) {
    var accepted := token == AdminKey || (token == BootstrapToken && s.consumed !in {None, Some("true")});
    var row := Key(token, if body.scopes.Some? then body.scopes.value else {"admin"}, body.expires);
    && outcome in {Forbidden, Unauthorized, Unprocessable, Created(key)}
    && (outcome == Forbidden <==> token == OtherKey)
    && (outcome == Unauthorized <==> !accepted && token != OtherKey)
    && (outcome == Created(key) <==>
          && accepted && (body.scopes.Some? ==> body.scopes.value <= {"admin", "ingest", "query"})
          && (body.expires.Some? ==> body.expires.value > now))
    && (outcome == Unprocessable <==> accepted && outcome != Created(key))
    && if outcome == Created(key)
       then && r.keys == s.keys[key := row] && r.cached == s.cached[key := row]
            && r.consumed == (if token == BootstrapToken then Some("true") else s.consumed)
       else r.keys == s.keys && r.cached == s.cached && r.consumed == s.consumed
  }

  lemma {:induction false} AloneIsAnswered(s: State, id: RequestId, token: Token, body: Body, now: Moment, key: KeyId)
    requires s.holder.None? && id !in s.requests && key !in s.keys
    ensures var r := Alone(s, id, token, body, now, key);
      && r.holder.None? && r.requests == s.requests && id in r.outcomes
      && Answered(s, r, token, body, now, key, r.outcomes[id])
  {
    hide Alone;
    AloneAnswers(s, id, token, body, now, key);
    assert s.consumed in {None, Some("true")} <==> s.consumed.None? || s.consumed.value == "true";
  }

  class KeyService {
    /** The state row, if the migration seeded it, and the committed keys with how each was created. */
    var consumed: Option<string>
    var keys: map<KeyId, Key>
    var holder: Option<RequestId>
    var requests: map<RequestId, Request>
    var outcomes: map<RequestId, Outcome>
    var cached: map<KeyId, Key>

    function Now(): State
      reads this
    {
      State(consumed, keys, holder, requests, outcomes, cached)
    }

    function BootstrapKeys(): set<KeyId>
      reads this
    {
      set k | k in keys && keys[k].creator == BootstrapToken
    }

    predicate IsConsumed()
      reads this
    {
      consumed.None? || consumed.value == "true"
    }

    /** A bootstrap request past authentication and not yet committed holds the row lock, over an unconsumed flag. */
    ghost predicate RequestValid(id: RequestId)
      reads this
      requires id in requests
    {
      var r := requests[id];
      && (r.phase.Committed? ==> r.phase.key in keys && keys[r.phase.key] == KeyOf(r.token, r.body))
      && (r.token.BootstrapToken? && !r.phase.Arrived? && !r.phase.Committed? ==> holder == Some(id))
      && (!r.phase.Arrived? ==> r.token.BootstrapToken? || r.token.AdminKey?)
    }

    ghost predicate Valid()
      reads this
    {
      && |BootstrapKeys()| <= 1
      && (BootstrapKeys() != {} <==> consumed == Some("true"))
      && (holder.Some? ==> !IsConsumed() && holder.value in requests && requests[holder.value].token.BootstrapToken?
                           && !requests[holder.value].phase.Arrived? && !requests[holder.value].phase.Committed?)
      && (forall id | id in requests :: RequestValid(id))
      && forall k | k in cached :: k in keys && cached[k] == keys[k]
    }

    /** A deployment whose migration did or did not seed the flag row. */
    constructor (seeded: bool)
      ensures Valid() && keys == map[] && requests == map[] && holder == None
      ensures consumed == if seeded then Some("false") else None
    {
      consumed := if seeded then Some("false") else None;
      keys, holder, requests, outcomes, cached := map[], None, map[], map[], map[];
    }

    /** Ends a request; whatever it had not committed is rolled back, its lock with it. */
    method Finish(id: RequestId, outcome: Outcome)
      requires Valid()
      modifies this`requests, this`holder, this`outcomes
      ensures Valid() && Now() == Ended(old(Now()), id, outcome)
    {
      if holder == Some(id) {
        holder := None;
      }
      requests := requests - {id};
      outcomes := outcomes[id := outcome];
      forall other | other in requests ensures RequestValid(other) {
        assert old(RequestValid(other));
      }
    }

    method MoveTo(id: RequestId, phase: Phase)
      requires Valid() && id in requests && !requests[id].phase.Arrived? && !phase.Arrived? && !phase.Committed?
      requires !requests[id].phase.Committed?
      modifies this`requests
      ensures Valid() && Now() == Moved(old(Now()), id, phase)
    {
      assert RequestValid(id);
      requests := requests[id := requests[id].(phase := phase)];
      forall other | other in requests ensures RequestValid(other) {
        assert other != id ==> old(RequestValid(other));
      }
    }

    method ArriveRequest(id: RequestId, token: Token, body: Body)
      requires Valid()
      modifies this`requests
      ensures Valid() && Now() == Next(old(Now()), Arrive(id, token, body))
    {
      if id !in requests {
        requests := requests[id := Request(token, body, Arrived)];
        forall other | other in requests ensures RequestValid(other) {
          assert other != id ==> old(RequestValid(other));
        }
      }
    }

    /**
     * The bootstrap path reads the flag FOR UPDATE, waiting while another request holds the row; the other
     * path needs the admin scope.
     */
    method AuthenticateRequest(id: RequestId)
      requires Valid()
      modifies this`requests, this`holder, this`outcomes
      ensures Valid() && Now() == Next(old(Now()), Authenticate(id))
      ensures TokenDecided(old(Now()), Now(), id)
    {
      if id in requests && requests[id].phase.Arrived? {
        match requests[id].token
        case BootstrapToken =>
          if holder.Some? {
            return;
          }
          if IsConsumed() {
            Finish(id, Unauthorized);
          } else {
            holder := Some(id);
            Pass(id);
          }
        case AdminKey => Pass(id);
        case OtherKey => Finish(id, Forbidden);
        case UnknownToken => Finish(id, Unauthorized);
      }
    }

    /** Lets an authenticated request through; a bootstrap request has just taken the lock. */
    method Pass(id: RequestId)
      requires id in requests && requests[id].phase.Arrived? && |BootstrapKeys()| <= 1
      requires (BootstrapKeys() != {} <==> consumed == Some("true"))
      requires forall k | k in cached :: k in keys && cached[k] == keys[k]
      requires forall other | other in requests :: other == id || RequestValid(other)
      requires if requests[id].token.BootstrapToken? then holder == Some(id) && !IsConsumed()
               else Valid() && requests[id].token.AdminKey?
      modifies this`requests
      ensures Valid() && Now() == Moved(old(Now()), id, Authenticated)
    {
      requests := requests[id := requests[id].(phase := Authenticated)];
      forall other | other in requests ensures RequestValid(other) {
        assert other != id ==> old(RequestValid(other));
      }
    }

    /** Scopes and expiry are checked only now, with the lock already held: a bad body lets it go again. */
    method ValidateRequest(id: RequestId, now: Moment)
      requires Valid()
      modifies this`requests, this`holder, this`outcomes
      ensures Valid() && Now() == Next(old(Now()), Validate(id, now))
      ensures BodyDecided(old(Now()), Now(), id, now)
    {
      if id in requests && requests[id].phase.Authenticated? {
        if BodyValid(requests[id].body, now) {
          MoveTo(id, Validated);
        } else {
          Finish(id, Unprocessable);
        }
      }
    }

    /** Adds the new key's row and, on the bootstrap path, sets the flag, both uncommitted. */
    method WriteKey(id: RequestId, key: KeyId)
      requires Valid()
      modifies this`requests
      ensures Valid() && Now() == Next(old(Now()), Write(id, key))
    {
      if id in requests && requests[id].phase.Validated? {
        MoveTo(id, Written(key));
      }
    }

    /** Key and flag become visible together; a key id already in the table fails the commit. */
    method CommitKey(id: RequestId)
      requires Valid()
      modifies this`keys, this`consumed, this`requests, this`holder, this`outcomes
      ensures Valid() && Now() == Next(old(Now()), Commit(id))
      ensures KeyCommitted(old(Now()), Now(), id)
    {
      if id in requests && requests[id].phase.Written? {
        var r := requests[id];
        assert RequestValid(id);
        if r.phase.key in keys {
          Finish(id, Aborted);
          return;
        }
        ghost var before := BootstrapKeys();
        keys := keys[r.phase.key := KeyOf(r.token, r.body)];
        requests := requests[id := r.(phase := Committed(r.phase.key))];
        if r.token.BootstrapToken? {
          assert before == {} && BootstrapKeys() == {r.phase.key};
          consumed, holder := Some("true"), None;
        } else {
          assert BootstrapKeys() == before;
        }
        forall other | other in requests ensures RequestValid(other) {
          assert other != id ==> old(RequestValid(other));
        }
      }
    }

    /** The cache learns of a key only after its commit. */
    method CacheKey(id: RequestId)
      requires Valid()
      modifies this`cached, this`requests, this`holder, this`outcomes
      ensures Valid() && Now() == Next(old(Now()), Cache(id))
      ensures id in old(requests) && old(requests)[id].phase.Committed? ==>
        var key := old(requests)[id].phase.key;
        key in keys && cached == old(cached)[key := keys[key]] && id in outcomes && outcomes[id] == Created(key)
    {
      if id in requests && requests[id].phase.Committed? {
        assert RequestValid(id);
        var key := requests[id].phase.key;
        cached := cached[key := KeyOf(requests[id].token, requests[id].body)];
        Finish(id, Created(key));
      }
    }

    /**
     * One request from arrival to answer, meeting no other on the way. An admin key passes, and so does the
     * bootstrap token while the flag row is there and not set; of those, exactly the requests with known
     * scopes and a future expiry, as far as they give them, get a key.
     */
    method CreateApiKey(id: RequestId, token: Token, body: Body, now: Moment, key: KeyId) returns (outcome: Outcome)
      requires Valid() && holder.None? && id !in requests && key !in keys
      modifies this
      ensures Valid() && holder.None? && requests == old(requests)
      ensures Answered(old(Now()), Now(), token, body, now, key, outcome)
    {
      hide Next, BootstrapKeys, RequestValid, TokenDecided, BodyDecided, KeyCommitted, Answered;
      ghost var s := Now();
      ArriveRequest(id, token, body);
      AuthenticateRequest(id);
      ValidateRequest(id, now);
      WriteKey(id, key);
      CommitKey(id);
      CacheKey(id);
      AloneIsAnswered(s, id, token, body, now, key);
      outcome := outcomes[id];
    }

    method Take(step: Step)
      requires Valid()
      modifies this
      ensures Valid() && Now() == Next(old(Now()), step) && old(BootstrapKeys()) <= BootstrapKeys()
    {
      hide RequestValid, BodyValid, TokenDecided, BodyDecided, KeyCommitted;
      match step
      case Arrive(id, token, body) => ArriveRequest(id, token, body);
      case Authenticate(id) => AuthenticateRequest(id);
      case Validate(id, now) => ValidateRequest(id, now);
      case Write(id, key) => WriteKey(id, key);
      case Commit(id) =>
        ghost var before := keys;
        CommitKey(id);
        assert forall k | k in before :: k in keys && keys[k] == before[k];
      case Cache(id) => CacheKey(id);
      case Abort(id) =>
        if id in requests {
          Finish(id, Aborted);
        }
    }

    /**
     * Any run, with any number of requests and any interleaving, follows the protocol step by step: at
     * most one key is ever committed through the bootstrap token, the flag is set exactly when it
     * exists, and a set flag stays set.
     */
    method Run(steps: seq<Step>)
      requires Valid()
      modifies this
      ensures Now() == After(old(Now()), steps)
      ensures Valid() && |BootstrapKeys()| <= 1 && (consumed == Some("true") <==> |BootstrapKeys()| == 1)
      ensures old(consumed) == Some("true") ==> BootstrapKeys() == old(BootstrapKeys())
    {
      for n := 0 to |steps|
        invariant Valid() && Now() == After(old(Now()), steps[..n]) && old(BootstrapKeys()) <= BootstrapKeys()
      {
        assert steps[..n + 1][..n] == steps[..n];
        Take(steps[n]);
      }
      assert steps[..|steps|] == steps;
      if BootstrapKeys() != {} {
        var k :| k in BootstrapKeys();
        OnlyOne(BootstrapKeys(), k);
        if old(BootstrapKeys()) != {} {
          var first :| first in old(BootstrapKeys());
          OnlyOne(BootstrapKeys(), first);
          OnlyOne(old(BootstrapKeys()), first);
        }
      }
    }
  }

  lemma {:induction false} OnlyOne(s: set<KeyId>, k: KeyId)
    requires |s| <= 1 && k in s
    ensures s == {k} && |s| == 1
  {
    assert |s - {k}| == |s| - 1;
    assert s - {k} == {};
  }
}
