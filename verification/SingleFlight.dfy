/**
 * Coalescing of concurrent Gets (core/dht/dht.go, get and the gate of getInner)
 * as a state machine over its atomic steps. Calls are coalesced by identifier and
 * verify flag; the blocklist and the store know identifiers only. The result of a
 * walk is arbitrary, and a value that a verified walk fetched is put into the local
 * store as the walk ends. Blocking an identifier is one step: it joins the blocklist
 * and leaves the store.
 */
module SingleFlight {
  import opened MapSum
  import opened Options

  type Name = string

  /** What calls are coalesced by: the identifier, and whether the value must hash to it. */
  datatype Key = Key(id: Name, verify: bool)

  type Tid = nat
  type Rec = nat

  datatype Result = Found(value: string) | NotFound

  /** Where a call to get stands. */
  datatype Phase =
    | Registered(rec: Rec)               // put its record in the map
    | Walking(rec: Rec)                  // passed the blocklist gate
    | Walked(rec: Rec, result: Result)   // getInner has returned
    | Unlisted(rec: Rec, result: Result) // took its record out of the map
    | Waiting(rec: Rec)                  // joined a record, blocked on its channel
    | Returned(rec: Rec, result: Result)

  datatype Call = Call(key: Key, phase: Phase, entered: nat)

  /** An inflightGet: who owns it, when it was listed, gated, ended and unlisted, its result, and whether done is closed. */
  datatype Record = Record(
    key: Key, owner: Tid, listed: nat, gated: Option<nat>, ended: Option<nat>, unlisted: Option<nat>,
    result: Option<Result>, done: bool)

  /** `stored` says of an identifier in the local store which record's walk put it there. */
  datatype State = State(
    calls: map<Tid, Call>, inflight: map<Key, Rec>, records: map<Rec, Record>,
    blockedSince: map<Name, nat>, stored: map<Name, Rec>, now: nat)

  datatype Event =
    | Enter(t: Tid, key: Key, rec: Rec)
    | Gate(t: Tid)
    | Finish(t: Tid, result: Result, cached: bool)
    | Unlist(t: Tid)
    | Close(t: Tid)
    | Wake(t: Tid)
    | Block(id: Name)

  const INITIAL: State := State(map[], map[], map[], map[], map[], 0)

  predicate Possible(s: State, e: Event) {
    match e
    case Enter(t, key, rec) => t !in s.calls && rec !in s.records
    case Gate(t) => t in s.calls && s.calls[t].phase.Registered? && s.calls[t].phase.rec in s.records
    case Finish(t, result, cached) =>
      && t in s.calls && s.calls[t].phase.Walking? && s.calls[t].phase.rec in s.records
      && (cached ==> result.Found? && s.calls[t].key.verify)
    case Unlist(t) => t in s.calls && s.calls[t].phase.Walked? && s.calls[t].phase.rec in s.records
    case Close(t) => t in s.calls && s.calls[t].phase.Unlisted? && s.calls[t].phase.rec in s.records
    case Wake(t) =>
      && t in s.calls && s.calls[t].phase.Waiting? && s.calls[t].phase.rec in s.records
      && s.records[s.calls[t].phase.rec].done && s.records[s.calls[t].phase.rec].result.Some?
    case Block(_) => true
  }

  function Move(s: State, t: Tid, phase: Phase): State
    requires t in s.calls
  {
    s.(calls := s.calls[t := s.calls[t].(phase := phase)])
  }

  function SetRecord(s: State, r: Rec, rec: Record): State {
    s.(records := s.records[r := rec])
  }

  function Act(s: State, e: Event): State
    requires Possible(s, e)
  {
    match e
    case Enter(t, key, r) =>
      if key in s.inflight then
        s.(calls := s.calls[t := Call(key, Waiting(s.inflight[key]), s.now)])
      else
        s.(calls := s.calls[t := Call(key, Registered(r), s.now)],
           inflight := s.inflight[key := r],
           records := s.records[r := Record(key, t, s.now, None, None, None, None, false)])
    case Gate(t) =>
      var r := s.calls[t].phase.rec;
      if s.calls[t].key.id in s.blockedSince then
        SetRecord(Move(s, t, Walked(r, NotFound)), r, s.records[r].(result := Some(NotFound), ended := Some(s.now)))
      else
        SetRecord(Move(s, t, Walking(r)), r, s.records[r].(gated := Some(s.now)))
    case Finish(t, result, cached) =>
      var r := s.calls[t].phase.rec;
      SetRecord(Move(s, t, Walked(r, result)), r, s.records[r].(result := Some(result), ended := Some(s.now)))
        .(stored := if cached then s.stored[s.calls[t].key.id := r] else s.stored)
    case Unlist(t) =>
      var p := s.calls[t].phase;
      SetRecord(Move(s, t, Unlisted(p.rec, p.result)), p.rec, s.records[p.rec].(unlisted := Some(s.now)))
        .(inflight := s.inflight - {s.calls[t].key})
    case Close(t) =>
      var p := s.calls[t].phase;
      SetRecord(Move(s, t, Returned(p.rec, p.result)), p.rec, s.records[p.rec].(done := true))
    case Wake(t) =>
      var r := s.calls[t].phase.rec;
      Move(s, t, Returned(r, s.records[r].result.value))
    case Block(id) =>
      s.(blockedSince := if id in s.blockedSince then s.blockedSince else s.blockedSince[id := s.now],
         stored := s.stored - {id})
  }

  /** One atomic step; the clock counts steps. */
  function Step(s: State, e: Event): State
    requires Possible(s, e)
  {
    Act(s, e).(now := s.now + 1)
  }

  // ----- the invariant -----

  /** The call runs the walk of record `r`, from listing it to closing it. */
  predicate Owns(p: Phase, r: Rec) {
    (p.Registered? || p.Walking? || p.Walked? || p.Unlisted?) && p.rec == r
  }

  /** The record was in the map when the call entered. */
  predicate InFlightAt(rec: Record, time: nat) {
    rec.listed <= time && (rec.unlisted.Some? ==> time <= rec.unlisted.value)
  }

  /** Between listing its record and taking it out again. */
  predicate Running(p: Phase) {
    p.Registered? || p.Walking? || p.Walked?
  }

  predicate CallOk(s: State, t: Tid)
    requires t in s.calls
  {
    var c := s.calls[t];
    var p := c.phase;
    && p.rec in s.records && s.records[p.rec].key == c.key
    && InFlightAt(s.records[p.rec], c.entered) && c.entered < s.now
    && (Running(p) ==> s.records[p.rec].owner == t && Listed(s, c.key, p.rec))
    && (p.Unlisted? ==> s.records[p.rec].owner == t && !Listed(s, c.key, p.rec))
    && (p.Waiting? ==> s.records[p.rec].owner != t)
    && (s.records[p.rec].owner == t ==> s.records[p.rec].listed == c.entered)
    && (p.Registered? || p.Walking? ==> s.records[p.rec].result.None?)
    && (p.Walked? || p.Unlisted? || p.Returned? ==> s.records[p.rec].result == Some(p.result))
  }

  predicate Listed(s: State, key: Key, r: Rec) {
    key in s.inflight && s.inflight[key] == r
  }

  /** A gate passed before the key was blocked. */
  predicate GateOk(s: State, rec: Record) {
    rec.gated.Some? ==>
      rec.listed < rec.gated.value < s.now && (rec.key.id in s.blockedSince ==> rec.gated.value < s.blockedSince[rec.key.id])
  }

  predicate RecordOk(s: State, r: Rec)
    requires r in s.records
  {
    var rec := s.records[r];
    && rec.owner in s.calls && rec.listed < s.now
    && (!rec.done ==> Owns(s.calls[rec.owner].phase, r))
    && (rec.done ==> rec.result.Some?)
    && (rec.unlisted.None? <==> Listed(s, rec.key, r))
    && (rec.unlisted.None? ==> !rec.done)
    && (rec.result.Some? && rec.result.value.Found? ==> rec.gated.Some?)
    && (rec.result.Some? <==> rec.ended.Some?) && (rec.ended.Some? ==> rec.ended.value < s.now)
    && (s.calls[rec.owner].phase == Walking(r) ==> rec.gated.Some?)
    && (s.calls[rec.owner].phase == Registered(r) ==> rec.gated.None?)
    && GateOk(s, rec)
  }

  /** A stored value came from a verified walk for it; if it is blocked, from one gated before and ended after. */
  predicate StoredOk(s: State, k: Name)
    requires k in s.stored
  {
    && s.stored[k] in s.records
    && var rec := s.records[s.stored[k]];
       && rec.key == Key(k, true) && rec.gated.Some? && rec.ended.Some?
       && (k in s.blockedSince ==> rec.gated.value < s.blockedSince[k] < rec.ended.value)
  }

  ghost predicate CallsOk(s: State) {
    forall t :: t in s.calls ==> CallOk(s, t)
  }

  ghost predicate RecordsOk(s: State) {
    forall r :: r in s.records ==> RecordOk(s, r)
  }

  ghost predicate MapsOk(s: State) {
    && (forall k :: k in s.inflight ==> s.inflight[k] in s.records && s.records[s.inflight[k]].key == k)
    && (forall k :: k in s.blockedSince ==> s.blockedSince[k] < s.now)
  }

  ghost predicate StoreOk(s: State) {
    forall k :: k in s.stored ==> StoredOk(s, k)
  }

  ghost predicate Valid(s: State) {
    CallsOk(s) && RecordsOk(s) && MapsOk(s) && StoreOk(s)
  }

  /** The steps of the call that owns a record. */
  predicate ByOwner(e: Event) {
    e.Gate? || e.Finish? || e.Unlist? || e.Close?
  }

  /** The record a step of its owner touches. */
  function Mine(s: State, e: Event): Rec
    requires ByOwner(e) && e.t in s.calls
  {
    s.calls[e.t].phase.rec
  }

  /** What a step relies on: the record it joins, or its own call and record. */
  predicate Grounded(s: State, e: Event)
    requires Possible(s, e)
  {
    && (e.Enter? && e.key in s.inflight ==>
          s.inflight[e.key] in s.records && s.records[s.inflight[e.key]].key == e.key && RecordOk(s, s.inflight[e.key]))
    && (ByOwner(e) ==> CallOk(s, e.t) && RecordOk(s, Mine(s, e)))
  }

  lemma ValidIsGrounded(s: State, e: Event)
    requires Valid(s) && Possible(s, e)
    ensures Grounded(s, e)
  {
  }

  // ----- one call and one record through each step -----

  lemma EnterCall(s: State, e: Event, t: Tid)
    requires Possible(s, e) && e.Enter? && Grounded(s, e) && t in Step(s, e).calls && (t in s.calls ==> CallOk(s, t))
    ensures CallOk(Step(s, e), t)
  {
  }

  lemma EnterRecord(s: State, e: Event, r: Rec)
    requires Possible(s, e) && e.Enter? && r in Step(s, e).records && (r in s.records ==> RecordOk(s, r))
    ensures RecordOk(Step(s, e), r)
  {
  }

  lemma OwnCall(s: State, e: Event)
    requires Possible(s, e) && ByOwner(e) && Grounded(s, e)
    ensures CallOk(Step(s, e), e.t)
  {
  }

  /** A step of the owner leaves other calls alone; their record keeps what they rely on. */
  lemma OtherCall(s: State, e: Event, t: Tid)
    requires Possible(s, e) && ByOwner(e) && Grounded(s, e) && t in s.calls && t != e.t && CallOk(s, t)
    ensures t in Step(s, e).calls && CallOk(Step(s, e), t)
  {
    match e
    case Gate(x) => OtherCallGate(s, x, t);
    case Finish(x, result, cached) => OtherCallFinish(s, x, result, cached, t);
    case Unlist(x) => OtherCallUnlist(s, x, t);
    case Close(x) => OtherCallClose(s, x, t);
  }

  lemma OtherCallGate(s: State, x: Tid, t: Tid)
    requires Possible(s, Gate(x)) && Grounded(s, Gate(x)) && t in s.calls && t != x && CallOk(s, t)
    ensures t in Step(s, Gate(x)).calls && CallOk(Step(s, Gate(x)), t)
  {
  }

  lemma OtherCallFinish(s: State, x: Tid, result: Result, cached: bool, t: Tid)
    requires Possible(s, Finish(x, result, cached)) && Grounded(s, Finish(x, result, cached))
    requires t in s.calls && t != x && CallOk(s, t)
    ensures t in Step(s, Finish(x, result, cached)).calls && CallOk(Step(s, Finish(x, result, cached)), t)
  {
  }

  lemma OtherCallUnlist(s: State, x: Tid, t: Tid)
    requires Possible(s, Unlist(x)) && Grounded(s, Unlist(x)) && t in s.calls && t != x && CallOk(s, t)
    ensures t in Step(s, Unlist(x)).calls && CallOk(Step(s, Unlist(x)), t)
  {
  }

  lemma OtherCallClose(s: State, x: Tid, t: Tid)
    requires Possible(s, Close(x)) && Grounded(s, Close(x)) && t in s.calls && t != x && CallOk(s, t)
    ensures t in Step(s, Close(x)).calls && CallOk(Step(s, Close(x)), t)
  {
  }

  lemma OwnRecord(s: State, e: Event)
    requires Possible(s, e) && ByOwner(e) && Grounded(s, e)
    ensures Mine(s, e) in Step(s, e).records && RecordOk(Step(s, e), Mine(s, e))
  {
  }

  lemma OtherRecord(s: State, e: Event, r: Rec)
    requires Possible(s, e) && ByOwner(e) && Grounded(s, e) && r in s.records && r != Mine(s, e) && RecordOk(s, r)
    ensures r in Step(s, e).records && RecordOk(Step(s, e), r)
  {
    match e
    case Unlist(x) => OtherRecordUnlist(s, x, r);
    case _ => OtherRecordListed(s, e, r);
  }

  lemma OtherRecordUnlist(s: State, x: Tid, r: Rec)
    requires Possible(s, Unlist(x)) && Grounded(s, Unlist(x))
    requires r in s.records && r != Mine(s, Unlist(x)) && RecordOk(s, r)
    ensures r in Step(s, Unlist(x)).records && RecordOk(Step(s, Unlist(x)), r)
  {
  }

  lemma OtherRecordListed(s: State, e: Event, r: Rec)
    requires Possible(s, e) && ByOwner(e) && !e.Unlist? && Grounded(s, e)
    requires r in s.records && r != Mine(s, e) && RecordOk(s, r)
    ensures r in Step(s, e).records && RecordOk(Step(s, e), r)
  {
  }

  lemma WakeCall(s: State, e: Event, t: Tid)
    requires Possible(s, e) && e.Wake? && t in s.calls && CallOk(s, t)
    ensures CallOk(Step(s, e), t)
  {
  }

  lemma WakeRecord(s: State, e: Event, r: Rec)
    requires Possible(s, e) && e.Wake? && r in s.records && RecordOk(s, r)
    ensures RecordOk(Step(s, e), r)
  {
  }

  lemma BlockCall(s: State, e: Event, t: Tid)
    requires Possible(s, e) && e.Block? && t in s.calls && CallOk(s, t)
    ensures CallOk(Step(s, e), t)
  {
  }

  lemma BlockRecord(s: State, e: Event, r: Rec)
    requires Possible(s, e) && e.Block? && r in s.records && RecordOk(s, r)
    ensures RecordOk(Step(s, e), r)
  {
  }

  lemma CallStep(s: State, e: Event, t: Tid)
    requires Possible(s, e) && Grounded(s, e) && t in Step(s, e).calls && (t in s.calls ==> CallOk(s, t))
    ensures CallOk(Step(s, e), t)
  {
    match e
    case Enter(_, _, _) => EnterCall(s, e, t);
    case Wake(_) => WakeCall(s, e, t);
    case Block(_) => BlockCall(s, e, t);
    case _ => if t == e.t { OwnCall(s, e); } else { OtherCall(s, e, t); }
  }

  lemma RecordStep(s: State, e: Event, r: Rec)
    requires Possible(s, e) && Grounded(s, e) && r in Step(s, e).records && (r in s.records ==> RecordOk(s, r))
    ensures RecordOk(Step(s, e), r)
  {
    match e
    case Enter(_, _, _) => EnterRecord(s, e, r);
    case Wake(_) => WakeRecord(s, e, r);
    case Block(_) => BlockRecord(s, e, r);
    case _ => if r == Mine(s, e) { OwnRecord(s, e); } else { OtherRecord(s, e, r); }
  }

  /** Steps keep the key of a record, and the gate and end once they are set. */
  lemma RecordFrame(s: State, e: Event, r: Rec)
    requires Possible(s, e) && Grounded(s, e) && r in s.records && RecordOk(s, r)
    ensures r in Step(s, e).records
    ensures var rec, now := s.records[r], Step(s, e).records[r];
            && now.key == rec.key && now.owner == rec.owner
            && (rec.gated.Some? ==> now.gated == rec.gated)
            && (rec.ended.Some? ==> now.ended == rec.ended && now.result == rec.result)
            && (rec.ended.None? && now.ended.Some? ==> now.ended.value == s.now)
  {
  }

  lemma InflightStep(s: State, e: Event, k: Key)
    requires Possible(s, e) && Grounded(s, e) && k in Step(s, e).inflight
    requires k in s.inflight ==> s.inflight[k] in s.records && s.records[s.inflight[k]].key == k
    ensures var u := Step(s, e); u.inflight[k] in u.records && u.records[u.inflight[k]].key == k
  {
  }

  lemma BlockedStep(s: State, e: Event, k: Name)
    requires Possible(s, e) && k in Step(s, e).blockedSince && (k in s.blockedSince ==> s.blockedSince[k] < s.now)
    ensures Step(s, e).blockedSince[k] < Step(s, e).now
  {
  }

  lemma StoredStep(s: State, e: Event, k: Name)
    requires Possible(s, e) && Grounded(s, e) && k in Step(s, e).stored
    requires k in s.stored ==> StoredOk(s, k) && RecordOk(s, s.stored[k])
    requires k in s.blockedSince ==> s.blockedSince[k] < s.now
    ensures StoredOk(Step(s, e), k)
  {
    if k in s.stored { RecordFrame(s, e, s.stored[k]); }
  }

  // ----- the whole state -----

  lemma CallsStep(s: State, e: Event)
    requires CallsOk(s) && Possible(s, e) && Grounded(s, e)
    ensures CallsOk(Step(s, e))
  {
    forall t | t in Step(s, e).calls ensures CallOk(Step(s, e), t) { CallStep(s, e, t); }
  }

  lemma RecordsStep(s: State, e: Event)
    requires RecordsOk(s) && Possible(s, e) && Grounded(s, e)
    ensures RecordsOk(Step(s, e))
  {
    forall r | r in Step(s, e).records ensures RecordOk(Step(s, e), r) { RecordStep(s, e, r); }
  }

  lemma MapsStep(s: State, e: Event)
    requires MapsOk(s) && Possible(s, e) && Grounded(s, e)
    ensures MapsOk(Step(s, e))
  {
    var u := Step(s, e);
    forall k | k in u.inflight ensures u.inflight[k] in u.records && u.records[u.inflight[k]].key == k {
      InflightStep(s, e, k);
    }
    forall k | k in u.blockedSince ensures u.blockedSince[k] < u.now { BlockedStep(s, e, k); }
  }

  lemma StoreStep(s: State, e: Event)
    requires StoreOk(s) && RecordsOk(s) && MapsOk(s) && Possible(s, e) && Grounded(s, e)
    ensures StoreOk(Step(s, e))
  {
    forall k | k in Step(s, e).stored ensures StoredOk(Step(s, e), k) { StoredStep(s, e, k); }
  }

  /** Every atomic step of every interleaving keeps the invariant. */
  lemma StepKeepsValid(s: State, e: Event)
    requires Valid(s) && Possible(s, e)
    ensures Valid(Step(s, e))
  {
    ValidIsGrounded(s, e);
    CallsStep(s, e);
    RecordsStep(s, e);
    MapsStep(s, e);
    StoreStep(s, e);
  }

  // ----- runs -----

  ghost predicate Run(s: State, es: seq<Event>)
    decreases |es|
  {
    es == [] || (Possible(s, es[0]) && Run(Step(s, es[0]), es[1..]))
  }

  ghost function Final(s: State, es: seq<Event>): State
    requires Run(s, es)
    decreases |es|
  {
    if es == [] then s else Final(Step(s, es[0]), es[1..])
  }

  lemma {:induction false} RunKeepsValid(s: State, es: seq<Event>)
    requires Valid(s) && Run(s, es)
    ensures Valid(Final(s, es))
    decreases |es|
  {
    if es != [] {
      StepKeepsValid(s, es[0]);
      RunKeepsValid(Step(s, es[0]), es[1..]);
    }
  }

  // ----- what every interleaving guarantees -----

  /** At most one walk per key at any moment. */
  lemma OneWalkPerKey(es: seq<Event>, t: Tid, u: Tid)
    requires Run(INITIAL, es)
    ensures var s := Final(INITIAL, es);
            t in s.calls && u in s.calls && Running(s.calls[t].phase) && Running(s.calls[u].phase) ==>
              (s.calls[t].key == s.calls[u].key ==> t == u)
  {
    RunKeepsValid(INITIAL, es);
    var s := Final(INITIAL, es);
    if t in s.calls && u in s.calls { assert CallOk(s, t) && CallOk(s, u); }
  }

  /** Every call that returned carries the result of a flight that was listed when the call entered. */
  lemma ReturnsAFlightOfItsTime(es: seq<Event>, t: Tid)
    requires Run(INITIAL, es)
    requires t in Final(INITIAL, es).calls && Final(INITIAL, es).calls[t].phase.Returned?
    ensures var s := Final(INITIAL, es);
            var c := s.calls[t];
            && c.phase.rec in s.records
            && var rec := s.records[c.phase.rec];
               rec.key == c.key && rec.result == Some(c.phase.result) && InFlightAt(rec, c.entered)
  {
    RunKeepsValid(INITIAL, es);
    assert CallOk(Final(INITIAL, es), t);
  }

  /** A call that enters after its key was blocked gets a value only by joining a flight gated before the block. */
  lemma ValueAfterBlockIsStale(es: seq<Event>, t: Tid)
    requires Run(INITIAL, es)
    requires var s := Final(INITIAL, es);
             t in s.calls && s.calls[t].phase.Returned? && s.calls[t].key.id in s.blockedSince
             && s.blockedSince[s.calls[t].key.id] < s.calls[t].entered && s.calls[t].phase.result.Found?
    ensures var s := Final(INITIAL, es);
            var c := s.calls[t];
            && c.phase.rec in s.records
            && var rec := s.records[c.phase.rec];
               rec.owner != t && rec.gated.Some? && rec.gated.value < s.blockedSince[c.key.id]
  {
    RunKeepsValid(INITIAL, es);
    var s := Final(INITIAL, es);
    assert CallOk(s, t);
    assert RecordOk(s, s.calls[t].phase.rec);
  }

  // ----- nobody waits for ever -----

  function Rank(p: Phase): nat {
    match p
    case Registered(_) => 4
    case Walking(_) => 3
    case Walked(_, _) => 2
    case Unlisted(_, _) => 1
    case Waiting(_) => 1
    case Returned(_, _) => 0
  }

  ghost function Ranks(s: State): map<Tid, nat> {
    map t | t in s.calls :: Rank(s.calls[t].phase)
  }

  /** Steps left in all the calls made so far. */
  ghost function Remaining(s: State): nat {
    Total(Ranks(s))
  }

  predicate Internal(e: Event) {
    !e.Enter? && !e.Block?
  }

  /** An internal step moves one call and leaves the others where they are. */
  lemma InternalMoves(s: State, e: Event)
    requires Possible(s, e) && Internal(e)
    ensures e.t in s.calls && e.t in Step(s, e).calls
    ensures Step(s, e).calls == s.calls[e.t := Step(s, e).calls[e.t]]
    ensures Rank(Step(s, e).calls[e.t].phase) < Rank(s.calls[e.t].phase)
  {
  }

  lemma RanksAfterMove(s: State, u: State, t: Tid)
    requires t in s.calls && t in u.calls && u.calls == s.calls[t := u.calls[t]]
    requires Rank(u.calls[t].phase) < Rank(s.calls[t].phase)
    ensures Remaining(u) < Remaining(s)
  {
    assert Ranks(u) - {t} == Ranks(s) - {t};
    TotalDiffer(Ranks(s), Ranks(u), t);
  }

  /** Every internal step uses up some of the remaining steps; blocking a key uses none. */
  lemma InternalStepCounts(s: State, e: Event)
    requires Possible(s, e) && !e.Enter?
    ensures Internal(e) ==> Remaining(Step(s, e)) < Remaining(s)
    ensures e.Block? ==> Remaining(Step(s, e)) == Remaining(s)
  {
    if Internal(e) {
      InternalMoves(s, e);
      RanksAfterMove(s, Step(s, e), e.t);
    } else {
      assert Ranks(Step(s, e)) == Ranks(s);
    }
  }

  /** The step the owner of a record takes next. */
  function OwnerStep(s: State, t: Tid): Event
    requires t in s.calls
  {
    match s.calls[t].phase
    case Registered(_) => Gate(t)
    case Walking(_) => Finish(t, NotFound, false)
    case Walked(_, _) => Unlist(t)
    case _ => Close(t)
  }

  /** As long as some call has not returned, an internal step is possible: a waiter's record is closed or its owner can move. */
  lemma SomeStepIsPossible(s: State, t: Tid) returns (e: Event)
    requires Valid(s) && t in s.calls && !s.calls[t].phase.Returned?
    ensures Internal(e) && Possible(s, e)
    ensures s.calls[t].phase.Waiting? ==>
              s.calls[t].phase.rec in s.records && var rec := s.records[s.calls[t].phase.rec];
              if rec.done then e == Wake(t) else e.t == rec.owner
  {
    assert CallOk(s, t);
    var r := s.calls[t].phase.rec;
    assert RecordOk(s, r);
    if !s.calls[t].phase.Waiting? {
      e := OwnerStep(s, t);
    } else if s.records[r].done {
      e := Wake(t);
    } else {
      var owner := s.records[r].owner;
      assert CallOk(s, owner);
      e := OwnerStep(s, owner);
    }
  }

  lemma RunOf(s: State, e: Event, es: seq<Event>)
    requires Possible(s, e) && Run(Step(s, e), es)
    ensures Run(s, [e] + es) && Final(s, [e] + es) == Final(Step(s, e), es)
  {
    assert ([e] + es)[1..] == es;
  }

  lemma InternalKeepsCalls(s: State, e: Event)
    requires Possible(s, e) && Internal(e)
    ensures Step(s, e).calls.Keys == s.calls.Keys
  {
    InternalMoves(s, e);
  }

  ghost predicate AllReturned(s: State) {
    forall t :: t in s.calls ==> s.calls[t].phase.Returned?
  }

  /** At most `n` internal steps lead from here to a state with the same calls, all returned. */
  ghost predicate CanFinish(s: State, n: nat) {
    exists es :: Finishes(s, es) && |es| <= n
  }

  ghost predicate Finishes(s: State, es: seq<Event>) {
    && Run(s, es) && (forall i :: 0 <= i < |es| ==> Internal(es[i]))
    && Final(s, es).calls.Keys == s.calls.Keys && AllReturned(Final(s, es))
  }

  lemma CanFinishBefore(s: State, e: Event, n: nat)
    requires Possible(s, e) && Internal(e) && CanFinish(Step(s, e), n)
    ensures CanFinish(s, n + 1)
  {
    var es :| Finishes(Step(s, e), es) && |es| <= n;
    FinishesBefore(s, e, es);
  }

  lemma FinishesBefore(s: State, e: Event, es: seq<Event>)
    requires Possible(s, e) && Internal(e) && Finishes(Step(s, e), es)
    ensures Finishes(s, [e] + es)
  {
    RunOf(s, e, es);
    InternalKeepsCalls(s, e);
  }

  lemma NextStep(s: State) returns (e: Event)
    requires Valid(s) && !AllReturned(s)
    ensures Internal(e) && Possible(s, e) && Valid(Step(s, e)) && Remaining(Step(s, e)) < Remaining(s)
  {
    var t :| t in s.calls && !s.calls[t].phase.Returned?;
    e := SomeStepIsPossible(s, t);
    StepKeepsValid(s, e);
    InternalStepCounts(s, e);
  }

  lemma AlreadyFinished(s: State, n: nat)
    requires AllReturned(s)
    ensures CanFinish(s, n)
  {
    assert Finishes(s, []);
  }

  /** From every valid state the calls made so far can all return, in no more steps than remain. */
  lemma {:induction false} EveryoneReturns(s: State, n: nat)
    requires Valid(s) && Remaining(s) <= n
    ensures CanFinish(s, n)
    decreases n
  {
    if AllReturned(s) {
      AlreadyFinished(s, n);
    } else {
      var e := NextStep(s);
      EveryoneReturns(Step(s, e), n - 1);
      CanFinishBefore(s, e, n - 1);
    }
  }

  /** And no scheduling of them can go on longer than that. */
  lemma {:induction false} InternalRunsAreBounded(s: State, es: seq<Event>)
    requires Run(s, es) && forall i :: 0 <= i < |es| ==> Internal(es[i])
    ensures |es| <= Remaining(s)
    decreases |es|
  {
    if es != [] {
      InternalStepCounts(s, es[0]);
      InternalRunsAreBounded(Step(s, es[0]), es[1..]);
    }
  }

  // ----- two departures from what a caller may expect -----

  /** Some run from here lets call `u` return `result`. */
  ghost predicate CanReturn(s: State, u: Tid, result: Result) {
    exists es :: ReturnsBy(s, es, u, result)
  }

  ghost predicate ReturnsBy(s: State, es: seq<Event>, u: Tid, result: Result) {
    && Run(s, es) && u in Final(s, es).calls && u in s.calls
    && Final(s, es).calls[u] == s.calls[u].(phase := Returned(s.calls[u].phase.rec, result))
  }

  lemma CanReturnBefore(s: State, e: Event, u: Tid, result: Result)
    requires Possible(s, e) && u in s.calls && u in Step(s, e).calls && Step(s, e).calls[u] == s.calls[u]
    requires CanReturn(Step(s, e), u, result)
    ensures CanReturn(s, u, result)
  {
    var m := Step(s, e);
    var es :| ReturnsBy(m, es, u, result);
    RunOf(s, e, es);
    assert ReturnsBy(s, [e] + es, u, result);
  }

  predicate WaitsFor(s: State, u: Tid, r: Rec) {
    u in s.calls && s.calls[u].phase == Waiting(r)
  }

  lemma WakesWithResult(s: State, u: Tid, r: Rec, result: Result)
    requires WaitsFor(s, u, r) && r in s.records && s.records[r].done && s.records[r].result == Some(result)
    ensures CanReturn(s, u, result)
  {
    RunOf(s, Wake(u), []);
    assert ReturnsBy(s, [Wake(u)] + [], u, result);
  }

  lemma UnlistedReaches(s: State, t: Tid, u: Tid, r: Rec, result: Result)
    requires WaitsFor(s, u, r) && t in s.calls && t != u && s.calls[t].phase == Unlisted(r, result) && CallOk(s, t)
    ensures CanReturn(s, u, result)
  {
    WakesWithResult(Step(s, Close(t)), u, r, result);
    CanReturnBefore(s, Close(t), u, result);
  }

  /** Whoever waits on a finished walk can receive its result. */
  lemma WalkedReaches(s: State, t: Tid, u: Tid, r: Rec, result: Result)
    requires Valid(s) && WaitsFor(s, u, r) && t in s.calls && t != u && s.calls[t].phase == Walked(r, result)
    ensures CanReturn(s, u, result)
  {
    var e := Unlist(t);
    assert CallOk(s, t);
    StepKeepsValid(s, e);
    assert CallOk(Step(s, e), t);
    UnlistedReaches(Step(s, e), t, u, r, result);
    CanReturnBefore(s, e, u, result);
  }

  lemma WalkingReaches(s: State, t: Tid, u: Tid, r: Rec, result: Result)
    requires Valid(s) && WaitsFor(s, u, r) && t in s.calls && t != u && s.calls[t].phase == Walking(r)
    ensures CanReturn(s, u, result)
  {
    var e := Finish(t, result, false);
    assert CallOk(s, t);
    StepKeepsValid(s, e);
    WalkedReaches(Step(s, e), t, u, r, result);
    CanReturnBefore(s, e, u, result);
  }

  // ----- how old a result can be -----

  predicate Flying(s: State, key: Key) {
    key in s.inflight && s.inflight[key] in s.records && s.records[s.inflight[key]].owner in s.calls
  }

  /** Where the owner of the record listed for a key stands. */
  function FlightPhase(s: State, key: Key): Phase
    requires Flying(s, key)
  {
    s.calls[s.records[s.inflight[key]].owner].phase
  }

  /** A walk for the key has ended, and its record is still listed. */
  predicate Over(s: State, key: Key) {
    Flying(s, key) && FlightPhase(s, key).Walked?
  }

  lemma FlightFacts(s: State, key: Key)
    requires Valid(s) && key in s.inflight
    ensures Flying(s, key) && Running(FlightPhase(s, key)) && FlightPhase(s, key).rec == s.inflight[key]
    ensures var rec := s.records[s.inflight[key]];
            rec.key == key && (rec.ended.Some? <==> FlightPhase(s, key).Walked?)
  {
    var r := s.inflight[key];
    assert RecordOk(s, r);
    assert CallOk(s, s.records[r].owner);
  }

  /** The record ended before time `e`, or will end or has ended after it. */
  predicate EndedBefore(s: State, r: Rec, e: nat) {
    r in s.records && s.records[r].ended.Some? && s.records[r].ended.value < e
  }

  predicate EndsAfter(s: State, r: Rec, e: nat) {
    r in s.records && e < s.now && (s.records[r].ended.Some? ==> s.records[r].ended.value > e)
  }

  /** The call is on this record and entered at this time. */
  predicate OnRecord(s: State, t: Tid, r: Rec, e: nat) {
    t in s.calls && s.calls[t].phase.rec == r && s.calls[t].entered == e
  }

  lemma StepKeepsCallRecord(s: State, ev: Event, t: Tid, r: Rec, e: nat)
    requires Possible(s, ev) && OnRecord(s, t, r, e)
    ensures OnRecord(Step(s, ev), t, r, e)
  {
  }

  lemma {:induction false} RunKeepsEnd(s: State, es: seq<Event>, t: Tid, r: Rec, e: nat)
    requires Valid(s) && Run(s, es) && OnRecord(s, t, r, e)
    ensures OnRecord(Final(s, es), t, r, e)
    ensures EndedBefore(s, r, e) ==> EndedBefore(Final(s, es), r, e)
    ensures EndsAfter(s, r, e) ==> EndsAfter(Final(s, es), r, e)
    decreases |es|
  {
    if es != [] {
      var ev := es[0];
      assert CallOk(s, t);
      ValidIsGrounded(s, ev);
      RecordFrame(s, ev, r);
      StepKeepsCallRecord(s, ev, t, r, e);
      StepKeepsValid(s, ev);
      RunKeepsEnd(Step(s, ev), es[1..], t, r, e);
    }
  }

  /** Entering puts the call on the listed record, over or not, or on a new one. */
  lemma EnterRecordAge(s: State, t: Tid, key: Key, spare: Rec)
    requires Valid(s) && Possible(s, Enter(t, key, spare))
    ensures var m := Step(s, Enter(t, key, spare));
            var r := if key in s.inflight then s.inflight[key] else spare;
            && OnRecord(m, t, r, s.now)
            && if Over(s, key) then EndedBefore(m, r, s.now) else EndsAfter(m, r, s.now)
  {
    if key in s.inflight {
      FlightFacts(s, key);
      assert RecordOk(s, s.inflight[key]);
    }
  }

  /**
   * A call that enters now and returns, in whatever run follows, gets the result of
   * a walk that ended during the call if and only if the walk listed for its key,
   * if there is one, was not already over when the call entered.
   */
  lemma ResultIsOfItsTimeIff(s: State, t: Tid, key: Key, spare: Rec, es: seq<Event>)
    requires Valid(s) && Possible(s, Enter(t, key, spare)) && Run(Step(s, Enter(t, key, spare)), es)
    requires var f := Final(Step(s, Enter(t, key, spare)), es); t in f.calls && f.calls[t].phase.Returned?
    ensures var f := Final(Step(s, Enter(t, key, spare)), es);
            var c := f.calls[t];
            && c.phase.rec in f.records
            && var rec := f.records[c.phase.rec];
               && rec.key == key && rec.result == Some(c.phase.result) && c.entered == s.now
               && rec.ended.Some? && (rec.ended.value > c.entered <==> !Over(s, key))
  {
    var m := Step(s, Enter(t, key, spare));
    var r := if key in s.inflight then s.inflight[key] else spare;
    StepKeepsValid(s, Enter(t, key, spare));
    EnterRecordAge(s, t, key, spare);
    RunKeepsEnd(m, es, t, r, s.now);
    RunKeepsValid(m, es);
    var f := Final(m, es);
    assert CallOk(f, t) && RecordOk(f, r);
    RunKeepsKey(m, es, t);
  }

  lemma {:induction false} RunKeepsKey(s: State, es: seq<Event>, t: Tid)
    requires Run(s, es) && t in s.calls
    ensures t in Final(s, es).calls && Final(s, es).calls[t].key == s.calls[t].key
    decreases |es|
  {
    if es != [] {
      StepKeepsCallRecord(s, es[0], t, s.calls[t].phase.rec, s.calls[t].entered);
      StepKeepsKey(s, es[0], t);
      RunKeepsKey(Step(s, es[0]), es[1..], t);
    }
  }

  lemma StepKeepsKey(s: State, e: Event, t: Tid)
    requires Possible(s, e) && t in s.calls
    ensures t in Step(s, e).calls && Step(s, e).calls[t].key == s.calls[t].key
  {
  }

  /** And the other case occurs: whoever enters while a walk is over but listed can get its result. */
  lemma ResultCanPredateCall(s: State, u: Tid, key: Key, spare: Rec)
    requires Valid(s) && Over(s, key) && u !in s.calls && spare !in s.records
    ensures var m := Step(s, Enter(u, key, spare));
            u in m.calls && CanReturn(m, u, FlightPhase(s, key).result)
  {
    var e := Enter(u, key, spare);
    FlightFacts(s, key);
    StepKeepsValid(s, e);
    WalkedReaches(Step(s, e), s.records[s.inflight[key]].owner, u, s.inflight[key], FlightPhase(s, key).result);
  }

  // ----- values for blocked keys -----

  /** The record of a blocked key has no value and will get none: it is not past the gate, or ended without one. */
  predicate Barren(s: State, r: Rec) {
    && r in s.records && s.records[r].key.id in s.blockedSince && s.records[r].owner in s.calls
    && (s.records[r].result.Some? ==> s.records[r].result == Some(NotFound))
    && s.calls[s.records[r].owner].phase != Walking(r)
  }

  lemma StepKeepsBarren(s: State, e: Event, r: Rec)
    requires Possible(s, e) && Grounded(s, e) && Barren(s, r) && RecordOk(s, r)
    ensures Barren(Step(s, e), r)
  {
    match e
    case Gate(t) => GateKeepsBarren(s, t, r);
    case Finish(t, result, cached) => FinishKeepsBarren(s, t, result, cached, r);
    case _ => OthersKeepBarren(s, e, r);
  }

  lemma GateKeepsBarren(s: State, t: Tid, r: Rec)
    requires Possible(s, Gate(t)) && CallOk(s, t) && Barren(s, r)
    ensures Barren(Step(s, Gate(t)), r)
  {
  }

  lemma FinishKeepsBarren(s: State, t: Tid, result: Result, cached: bool, r: Rec)
    requires Possible(s, Finish(t, result, cached)) && CallOk(s, t) && Barren(s, r)
    ensures Barren(Step(s, Finish(t, result, cached)), r)
  {
  }

  lemma OthersKeepBarren(s: State, e: Event, r: Rec)
    requires Possible(s, e) && !e.Gate? && !e.Finish? && Barren(s, r)
    ensures Barren(Step(s, e), r)
  {
  }

  lemma {:induction false} RunKeepsBarren(s: State, es: seq<Event>, r: Rec)
    requires Valid(s) && Run(s, es) && Barren(s, r)
    ensures Barren(Final(s, es), r)
    decreases |es|
  {
    if es != [] {
      ValidIsGrounded(s, es[0]);
      StepKeepsBarren(s, es[0], r);
      StepKeepsValid(s, es[0]);
      RunKeepsBarren(Step(s, es[0]), es[1..], r);
    }
  }

  /** The walk listed for the key is past its gate, or has ended with a value. */
  predicate Fruitful(s: State, key: Key) {
    Flying(s, key) && (FlightPhase(s, key).Walking? || (FlightPhase(s, key).Walked? && FlightPhase(s, key).result.Found?))
  }

  ghost predicate CanReturnValue(s: State, u: Tid) {
    exists v :: CanReturn(s, u, Found(v))
  }

  lemma BarrenEndsWithout(s: State, es: seq<Event>, u: Tid, v: string)
    requires Valid(s) && u in s.calls && Barren(s, s.calls[u].phase.rec) && Run(s, es)
    ensures !ReturnsBy(s, es, u, Found(v))
  {
    RunKeepsBarren(s, es, s.calls[u].phase.rec);
    RunKeepsValid(s, es);
    if u in Final(s, es).calls { ReturnedResult(Final(s, es), u); }
  }

  lemma ReturnedResult(s: State, u: Tid)
    requires CallsOk(s) && u in s.calls
    ensures s.calls[u].phase.Returned? ==>
              s.calls[u].phase.rec in s.records && s.records[s.calls[u].phase.rec].result == Some(s.calls[u].phase.result)
  {
    assert CallOk(s, u);
  }

  lemma BarrenReturnsNothing(s: State, u: Tid)
    requires Valid(s) && u in s.calls && Barren(s, s.calls[u].phase.rec)
    ensures !CanReturnValue(s, u)
  {
    forall v, es | Run(s, es) ensures !ReturnsBy(s, es, u, Found(v)) { BarrenEndsWithout(s, es, u, v); }
  }

  /** A listed walk that is neither past its gate nor ended with a value is barren. */
  lemma UnfruitfulIsBarren(s: State, key: Key)
    requires Valid(s) && key.id in s.blockedSince && key in s.inflight && !Fruitful(s, key)
    ensures Barren(s, s.inflight[key])
  {
    FlightFacts(s, key);
    var r := s.inflight[key];
    assert RecordOk(s, r) && CallOk(s, s.records[r].owner);
  }

  lemma NotFruitfulIsBarren(s: State, u: Tid, key: Key, spare: Rec)
    requires Valid(s) && key.id in s.blockedSince && Possible(s, Enter(u, key, spare)) && !Fruitful(s, key)
    ensures var m := Step(s, Enter(u, key, spare)); u in m.calls && Barren(m, m.calls[u].phase.rec)
  {
    if key in s.inflight {
      UnfruitfulIsBarren(s, key);
      OthersKeepBarren(s, Enter(u, key, spare), s.inflight[key]);
    }
  }

  lemma FruitfulReaches(s: State, u: Tid, key: Key, spare: Rec)
    requires Valid(s) && Possible(s, Enter(u, key, spare)) && Fruitful(s, key)
    ensures CanReturnValue(Step(s, Enter(u, key, spare)), u)
  {
    var m := Step(s, Enter(u, key, spare));
    FlightFacts(s, key);
    StepKeepsValid(s, Enter(u, key, spare));
    var r := s.inflight[key];
    var t, p := s.records[r].owner, FlightPhase(s, key);
    if p.Walking? {
      WalkingReaches(m, t, u, r, Found(""));
    } else {
      WalkedReaches(m, t, u, r, p.result);
    }
  }

  /**
   * Joining does not look at the blocklist again. A call that enters after its key
   * was blocked can return a value if and only if a walk for the key is listed that
   * is past its gate or has ended with a value.
   */
  lemma ValueAfterBlockIff(s: State, u: Tid, key: Key, spare: Rec)
    requires Valid(s) && key.id in s.blockedSince && Possible(s, Enter(u, key, spare))
    ensures CanReturnValue(Step(s, Enter(u, key, spare)), u) <==> Fruitful(s, key)
  {
    if Fruitful(s, key) {
      FruitfulReaches(s, u, key, spare);
    } else {
      NotFruitfulIsBarren(s, u, key, spare);
      StepKeepsValid(s, Enter(u, key, spare));
      BarrenReturnsNothing(Step(s, Enter(u, key, spare)), u);
    }
  }

  /** Such states are reached: a call enters, passes the gate, and then its key is blocked. */
  lemma WalkForBlockedKeyIsReachable(t: Tid, r: Rec, key: Key)
    ensures var s1 := Step(INITIAL, Enter(t, key, r));
            Possible(s1, Gate(t)) && var s2 := Step(s1, Gate(t));
            var s3 := Step(s2, Block(key.id));
            Valid(s3) && Fruitful(s3, key) && key.id in s3.blockedSince && key.id !in s3.stored
  {
    StepKeepsValid(INITIAL, Enter(t, key, r));
    var s1 := Step(INITIAL, Enter(t, key, r));
    StepKeepsValid(s1, Gate(t));
    StepKeepsValid(Step(s1, Gate(t)), Block(key.id));
  }

  // ----- blocked identifiers that come back into the store -----

  /** The identifier is blocked and not stored, and no verified walk for it is past its gate. */
  ghost predicate NoWalk(s: State, id: Name) {
    && id in s.blockedSince && id !in s.stored
    && forall t :: t in s.calls && s.calls[t].key == Key(id, true) ==> !s.calls[t].phase.Walking?
  }

  lemma StepKeepsNoWalk(s: State, e: Event, id: Name)
    requires Possible(s, e) && NoWalk(s, id)
    ensures NoWalk(Step(s, e), id)
  {
  }

  lemma {:induction false} RunKeepsNoWalk(s: State, es: seq<Event>, id: Name)
    requires Run(s, es) && NoWalk(s, id)
    ensures NoWalk(Final(s, es), id)
    decreases |es|
  {
    if es != [] {
      StepKeepsNoWalk(s, es[0], id);
      RunKeepsNoWalk(Step(s, es[0]), es[1..], id);
    }
  }

  ghost predicate CanBeStored(s: State, id: Name) {
    exists es :: Run(s, es) && id in Final(s, es).stored
  }

  /** A verified walk for the identifier is past its gate. */
  predicate VerifiedWalk(s: State, id: Name) {
    Flying(s, Key(id, true)) && FlightPhase(s, Key(id, true)).Walking?
  }

  /**
   * A revoke deletes the identifier from the store, but a verified walk that had passed
   * the gate before still stores what it fetches: an identifier that is blocked and not
   * stored can come back if and only if such a walk is under way. An unverified walk
   * stores nothing.
   */
  lemma StoredAfterBlockIff(s: State, id: Name)
    requires Valid(s) && id in s.blockedSince && id !in s.stored
    ensures CanBeStored(s, id) <==> VerifiedWalk(s, id)
  {
    var key := Key(id, true);
    if VerifiedWalk(s, id) {
      FlightFacts(s, key);
      var e := Finish(s.records[s.inflight[key]].owner, Found(""), true);
      assert CallOk(s, e.t);
      RunOf(s, e, []);
    } else {
      forall t | t in s.calls && s.calls[t].key == key ensures !s.calls[t].phase.Walking? {
        assert CallOk(s, t);
      }
      forall es | Run(s, es) ensures id !in Final(s, es).stored { RunKeepsNoWalk(s, es, id); }
    }
  }

  /** In every reachable state, a stored value of a blocked identifier came from a verified walk gated before the block and ended after it. */
  lemma StoredDespiteBlock(es: seq<Event>, id: Name)
    requires Run(INITIAL, es) && id in Final(INITIAL, es).stored && id in Final(INITIAL, es).blockedSince
    ensures var s := Final(INITIAL, es);
            && s.stored[id] in s.records
            && var rec := s.records[s.stored[id]];
               && rec.key == Key(id, true) && rec.gated.Some? && rec.ended.Some?
               && rec.gated.value < s.blockedSince[id] < rec.ended.value
  {
    RunKeepsValid(INITIAL, es);
    assert StoredOk(Final(INITIAL, es), id);
  }
}
