/** Fetching whole messages: FetchFull of lib/msgstore.go and the answers of the worker. */
module BodyFetching {
  import opened Prelude
  import opened ThreadTree

  /** A function to be called with a message; the same one may be handed in many times. */
  type Callback = nat

  type Waiting = map<UID, seq<Callback>>

  /** What the store keeps, and what has happened so far: uids requested from the worker, requests that
      were settled, and callbacks registered, called, and dropped after an error. */
  datatype State = State(
    pending: set<UID>, waiting: Waiting,
    requested: multiset<UID>, settled: multiset<UID>,
    registered: multiset<(UID, Callback)>, fired: multiset<(UID, Callback)>, dropped: multiset<(UID, Callback)>)

  datatype Event =
    | Fetch(uids: seq<UID>, cb: Option<Callback>)
    | Failed(uids: seq<UID>)
    | Full(uid: UID)

  const START := State({}, map[], multiset{}, multiset{}, multiset{}, multiset{}, multiset{})

  function WaitingFor(w: Waiting, u: UID): seq<Callback> {
    if u in w then w[u] else []
  }

  function Registrations(u: UID, cbs: seq<Callback>): multiset<(UID, Callback)> {
    if cbs == [] then multiset{} else multiset{(u, cbs[0])} + Registrations(u, cbs[1..])
  }

  lemma {:induction false} RegistrationsAre(u: UID, cbs: seq<Callback>, v: UID, c: Callback)
    ensures Registrations(u, cbs)[(v, c)] == if u == v then multiset(cbs)[c] else 0
  {
    if cbs != [] {
      assert cbs == [cbs[0]] + cbs[1..];
      RegistrationsAre(u, cbs[1..], v, c);
    }
  }

  // ---------- the steps ----------

  /** One turn of the loop of FetchFull. */
  function FetchOne(s: State, u: UID, cb: Option<Callback>): State {
    if u in s.pending then s
    else
      var s' := s.(pending := s.pending + {u}, requested := s.requested + multiset{u});
      if cb.None? then s'
      else s'.(waiting := s.waiting[u := WaitingFor(s.waiting, u) + [cb.value]],
               registered := s.registered + multiset{(u, cb.value)})
  }

  function FetchAll(s: State, uids: seq<UID>, cb: Option<Callback>): State {
    if uids == [] then s else FetchOne(FetchAll(s, uids[..|uids| - 1], cb), uids[|uids| - 1], cb)
  }

  /** What a call of FetchFull asks the worker for. */
  function ToFetch(pending: set<UID>, uids: seq<UID>): seq<UID> {
    if uids == [] then []
    else
      var fetch := ToFetch(pending, uids[..|uids| - 1]);
      var u := uids[|uids| - 1];
      if u in pending || u in fetch then fetch else fetch + [u]
  }

  function FailOne(s: State, u: UID): State {
    s.(pending := s.pending - {u}, waiting := s.waiting - {u},
       settled := if u in s.pending then s.settled + multiset{u} else s.settled,
       dropped := s.dropped + Registrations(u, WaitingFor(s.waiting, u)))
  }

  function FailAll(s: State, uids: seq<UID>): State {
    if uids == [] then s else FailOne(FailAll(s, uids[..|uids| - 1]), uids[|uids| - 1])
  }

  function Arrive(s: State, u: UID): State {
    if u !in s.pending then s
    else
      s.(pending := s.pending - {u}, waiting := s.waiting - {u},
         settled := s.settled + multiset{u},
         fired := s.fired + Registrations(u, WaitingFor(s.waiting, u)))
  }

  function Next(s: State, e: Event): State {
    match e
    case Fetch(uids, cb) => FetchAll(s, uids, cb)
    case Failed(uids) => FailAll(s, uids)
    case Full(uid) => Arrive(s, uid)
  }

  function Run(s: State, es: seq<Event>): State {
    if es == [] then s else Next(Run(s, es[..|es| - 1]), es[|es| - 1])
  }

  // ---------- what every run keeps ----------

  /** Callbacks wait only for pending messages; a message is pending when one request more was made than
      settled; and every registered callback either waits, was called, or was dropped. */
  ghost predicate Sound(s: State) {
    && s.waiting.Keys <= s.pending
    && (forall u :: s.requested[u] == s.settled[u] + if u in s.pending then 1 else 0)
    && (forall u, c :: Balanced(s, u, c))
  }

  ghost predicate Balanced(s: State, u: UID, c: Callback) {
    s.registered[(u, c)] == s.fired[(u, c)] + s.dropped[(u, c)] + multiset(WaitingFor(s.waiting, u))[c]
  }

  lemma FetchOneKeeps(s: State, u: UID, cb: Option<Callback>)
    requires Sound(s)
    ensures Sound(FetchOne(s, u, cb))
  {
    var s' := FetchOne(s, u, cb);
    forall v, c ensures Balanced(s', v, c) {
      assert Balanced(s, v, c);
      if u !in s.pending && cb.Some? && v == u {
        assert multiset(WaitingFor(s'.waiting, v)) == multiset(WaitingFor(s.waiting, v)) + multiset{cb.value};
      }
    }
  }

  lemma FailOneKeeps(s: State, u: UID)
    requires Sound(s)
    ensures Sound(FailOne(s, u))
  {
    var s' := FailOne(s, u);
    forall v ensures s'.requested[v] == s'.settled[v] + if v in s'.pending then 1 else 0 {
      assert s.requested[v] == s.settled[v] + if v in s.pending then 1 else 0;
    }
    forall v, c ensures Balanced(s', v, c) {
      FailOneBalances(s, u, v, c);
    }
  }

  lemma FailOneBalances(s: State, u: UID, v: UID, c: Callback)
    requires Balanced(s, v, c)
    ensures Balanced(FailOne(s, u), v, c)
  {
    RegistrationsAre(u, WaitingFor(s.waiting, u), v, c);
  }

  lemma ArriveKeeps(s: State, u: UID)
    requires Sound(s)
    ensures Sound(Arrive(s, u))
  {
    var s' := Arrive(s, u);
    forall v ensures s'.requested[v] == s'.settled[v] + if v in s'.pending then 1 else 0 {
      assert s.requested[v] == s.settled[v] + if v in s.pending then 1 else 0;
    }
    forall v, c ensures Balanced(s', v, c) {
      assert Balanced(s, v, c);
      ArriveBalances(s, u, v, c);
    }
  }

  lemma ArriveBalances(s: State, u: UID, v: UID, c: Callback)
    requires Balanced(s, v, c)
    ensures Balanced(Arrive(s, u), v, c)
  {
    RegistrationsAre(u, WaitingFor(s.waiting, u), v, c);
  }

  lemma {:induction false} FetchKeeps(s: State, uids: seq<UID>, cb: Option<Callback>)
    requires Sound(s)
    ensures Sound(FetchAll(s, uids, cb))
  {
    if uids != [] {
      FetchKeeps(s, uids[..|uids| - 1], cb);
      FetchOneKeeps(FetchAll(s, uids[..|uids| - 1], cb), uids[|uids| - 1], cb);
    }
  }

  lemma {:induction false} FailKeeps(s: State, uids: seq<UID>)
    requires Sound(s)
    ensures Sound(FailAll(s, uids))
  {
    if uids != [] {
      FailKeeps(s, uids[..|uids| - 1]);
      FailOneKeeps(FailAll(s, uids[..|uids| - 1]), uids[|uids| - 1]);
    }
  }

  lemma {:induction false} RunIsSound(es: seq<Event>)
    ensures Sound(Run(START, es))
  {
    if es != [] {
      var s, e := Run(START, es[..|es| - 1]), es[|es| - 1];
      RunIsSound(es[..|es| - 1]);
      match e {
        case Fetch(uids, cb) => FetchKeeps(s, uids, cb);
        case Failed(uids) => FailKeeps(s, uids);
        case Full(uid) => ArriveKeeps(s, uid);
      }
    }
  }

  /** Over every run a registered callback is called at most once, and never after it was dropped. */
  lemma FiresAtMostOnce(es: seq<Event>)
    ensures var s := Run(START, es); s.fired + s.dropped <= s.registered
  {
    RunIsSound(es);
    var s := Run(START, es);
    forall x: (UID, Callback) ensures (s.fired + s.dropped)[x] <= s.registered[x] {
      assert Balanced(s, x.0, x.1);
      assert x == (x.0, x.1);
    }
  }

  // ---------- one call of FetchFull ----------

  /** FetchFull asks for each uid of its list that is not pending, once. */
  lemma {:induction false} ToFetchIs(pending: set<UID>, uids: seq<UID>)
    ensures NoDup(ToFetch(pending, uids))
    ensures forall u :: u in ToFetch(pending, uids) <==> u in uids && u !in pending
  {
    if uids != [] {
      ToFetchIs(pending, uids[..|uids| - 1]);
      assert uids == uids[..|uids| - 1] + [uids[|uids| - 1]];
    }
  }

  lemma ToFetchNext(pending: set<UID>, uids: seq<UID>, i: nat)
    requires i < |uids|
    ensures ToFetch(pending, uids[..i + 1]) ==
            if uids[i] in pending || uids[i] in uids[..i] then ToFetch(pending, uids[..i])
            else ToFetch(pending, uids[..i]) + [uids[i]]
  {
    assert uids[..i + 1][..i] == uids[..i];
    ToFetchIs(pending, uids[..i]);
  }

  /** It leaves them pending. */
  lemma {:induction false} FetchedArePending(s: State, uids: seq<UID>, cb: Option<Callback>)
    ensures FetchAll(s, uids, cb).pending == s.pending + set u | u in uids
  {
    if uids != [] {
      assert uids == uids[..|uids| - 1] + [uids[|uids| - 1]];
      FetchedArePending(s, uids[..|uids| - 1], cb);
    }
  }

  lemma {:induction false} FetchedAreRequested(s: State, uids: seq<UID>, cb: Option<Callback>)
    ensures var s' := FetchAll(s, uids, cb);
      && s'.requested == s.requested + multiset(ToFetch(s.pending, uids))
      && s'.settled == s.settled && s'.fired == s.fired && s'.dropped == s.dropped
  {
    if uids != [] {
      var most := uids[..|uids| - 1];
      FetchedAreRequested(s, most, cb);
      FetchedArePending(s, most, cb);
      ToFetchIs(s.pending, most);
    }
  }

  /** It registers its callback for just those it asks for. */
  lemma {:induction false} FetchRegisters(s: State, uids: seq<UID>, cb: Option<Callback>, u: UID, c: Callback)
    ensures Registers(s, uids, cb, u, c)
  {
    if uids != [] {
      var most := uids[..|uids| - 1];
      assert uids == most + [uids[|uids| - 1]];
      FetchRegisters(s, most, cb, u, c);
      FetchedArePending(s, most, cb);
    }
  }

  ghost predicate Registers(s: State, uids: seq<UID>, cb: Option<Callback>, u: UID, c: Callback) {
    FetchAll(s, uids, cb).registered[(u, c)] ==
      s.registered[(u, c)] + if cb == Some(c) && u in uids && u !in s.pending then 1 else 0
  }

  // ---------- the store ----------

  class BodyStore {
    var pendingBodies: set<UID>
    var bodyCallbacks: map<UID, seq<Callback>>
    ghost var log: State

    constructor ()
      ensures Valid() && log == START
    {
      pendingBodies, bodyCallbacks, log := {}, map[], START;
    }

    ghost predicate Valid()
      reads this
    {
      pendingBodies == log.pending && bodyCallbacks == log.waiting && Sound(log)
    }

    /** FetchFull: what it posts to the worker, if anything. */
    method FetchFull(uids: seq<UID>, cb: Option<Callback>) returns (toFetch: seq<UID>)
      requires Valid()
      modifies this
      ensures Valid() && log == Next(old(log), Fetch(uids, cb))
      ensures toFetch == ToFetch(old(pendingBodies), uids)
    {
      toFetch := [];
      ghost var before := log;
      for i := 0 to |uids|
        invariant pendingBodies == log.pending && bodyCallbacks == log.waiting
        invariant log == FetchAll(before, uids[..i], cb)
        invariant toFetch == ToFetch(before.pending, uids[..i])
      {
        assert uids[..i + 1][..i] == uids[..i];
        FetchedArePending(before, uids[..i], cb);
        ToFetchNext(before.pending, uids, i);
        var asked := Ask(uids[i], cb);
        toFetch := if asked then toFetch + [uids[i]] else toFetch;
      }
      assert uids[..|uids|] == uids;
      FetchKeeps(before, uids, cb);
    }

    /** One turn of its loop: whether the uid is to be requested. */
    method Ask(uid: UID, cb: Option<Callback>) returns (asked: bool)
      requires pendingBodies == log.pending && bodyCallbacks == log.waiting
      modifies this
      ensures pendingBodies == log.pending && bodyCallbacks == log.waiting
      ensures log == FetchOne(old(log), uid, cb) && (asked <==> uid !in old(log).pending)
    {
      asked := uid !in pendingBodies;
      if asked {
        pendingBodies := pendingBodies + {uid};
        if cb.Some? {
          if uid in bodyCallbacks {
            bodyCallbacks := bodyCallbacks[uid := bodyCallbacks[uid] + [cb.value]];
          } else {
            assert [] + [cb.value] == [cb.value];
            bodyCallbacks := bodyCallbacks[uid := [cb.value]];
          }
        }
      }
      log := FetchOne(log, uid, cb);
    }

    /** The answer to a request that failed. */
    method FetchFailed(toFetch: seq<UID>)
      requires Valid()
      modifies this
      ensures Valid() && log == Next(old(log), Failed(toFetch))
    {
      ghost var before := log;
      for i := 0 to |toFetch|
        invariant pendingBodies == log.pending && bodyCallbacks == log.waiting
        invariant log == FailAll(before, toFetch[..i])
      {
        assert toFetch[..i + 1][..i] == toFetch[..i];
        pendingBodies := pendingBodies - {toFetch[i]};
        bodyCallbacks := bodyCallbacks - {toFetch[i]};
        log := FailOne(log, toFetch[i]);
      }
      assert toFetch[..|toFetch|] == toFetch;
      FailKeeps(before, toFetch);
    }

    /** Update on a message that arrived: the callbacks that are called, in order. */
    method FullMessage(uid: UID) returns (called: seq<Callback>)
      requires Valid()
      modifies this
      ensures Valid() && log == Next(old(log), Full(uid))
      ensures called == WaitingFor(old(bodyCallbacks), uid)
    {
      ArriveKeeps(log, uid);
      called := Deliver(uid);
      log := Arrive(log, uid);
    }

    /** What it does to the maps. */
    method Deliver(uid: UID) returns (called: seq<Callback>)
      requires bodyCallbacks.Keys <= pendingBodies
      modifies this`pendingBodies, this`bodyCallbacks
      ensures pendingBodies == old(pendingBodies) - {uid}
      ensures bodyCallbacks == old(bodyCallbacks) - {uid}
      ensures called == WaitingFor(old(bodyCallbacks), uid)
    {
      called := [];
      if uid in pendingBodies {
        pendingBodies := pendingBodies - {uid};
        if uid in bodyCallbacks {
          called := CallAll(bodyCallbacks[uid]);
          bodyCallbacks := bodyCallbacks - {uid};
        }
      }
    }
  }

  /** Calling the callbacks one after another. */
  method CallAll(cbs: seq<Callback>) returns (called: seq<Callback>)
    ensures called == cbs
  {
    called := [];
    for i := 0 to |cbs|
      invariant called == cbs[..i]
    {
      called := called + [cbs[i]];
    }
  }
}
