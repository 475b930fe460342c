/** What the session manager holds and what each of its operations does to it. */
module Sessions {
  type Imsi = string
  type Instant = int  // nanoseconds of the steady clock

  const SECOND: int := 1_000_000_000
  const IMSI_LENGTH: nat := 15

  predicate IsValidImsi(imsi: Imsi) {
    |imsi| == IMSI_LENGTH && forall i :: 0 <= i < |imsi| ==> '0' <= imsi[i] <= '9'
  }

  datatype Action = CREATED | DELETED | REJECTED | ERROR
  datatype Cdr = Cdr(imsi: Imsi, action: Action)
  datatype CreateResult = Created | RejectedBlacklist | AlreadyExists | ServiceUnavailable | Error

  datatype Statistics = Statistics(
    active: nat, created: nat, rejected: nat, expired: nat, terminated: nat, total: nat)

  datatype Manager = Manager(
    sessions: map<Imsi, Instant>, blacklist: set<Imsi>, draining: bool, stats: Statistics, log: seq<Cdr>)

  function Initial(blacklist: set<Imsi>): Manager {
    Manager(map[], blacklist, false, Statistics(0, 0, 0, 0, 0, 0), [])
  }

  // ----- The operations -----

  function Create(m: Manager, imsi: Imsi, now: Instant): (Manager, CreateResult) {
    if m.draining then (m, ServiceUnavailable)
    else if imsi in m.blacklist then
      (m.(log := m.log + [Cdr(imsi, REJECTED)],
          stats := m.stats.(rejected := m.stats.rejected + 1, total := m.stats.total + 1)),
       RejectedBlacklist)
    else if imsi in m.sessions then (m, AlreadyExists)
    else
      var sessions := m.sessions[imsi := now];
      (m.(sessions := sessions,
          log := m.log + [Cdr(imsi, CREATED)],
          stats := m.stats.(created := m.stats.created + 1, total := m.stats.total + 1, active := |sessions|)),
       Created)
  }

  /** The entry goes, then its record is written. */
  function Delete(m: Manager, imsi: Imsi): Manager
    requires imsi in m.sessions
  {
    var sessions := m.sessions - {imsi};
    m.(sessions := sessions, log := m.log + [Cdr(imsi, DELETED)], stats := m.stats.(active := |sessions|))
  }

  function Terminate(m: Manager, imsi: Imsi): (Manager, bool) {
    if imsi in m.sessions then
      var m' := Delete(m, imsi);
      (m'.(stats := m'.stats.(terminated := m'.stats.terminated + 1)), true)
    else (m, false)
  }

  /** The entry a hash table happens to put first: any entry, by choice of hint. */
  ghost function First(keys: set<Imsi>, hint: Imsi): (k: Imsi)
    requires keys != {}
    ensures k in keys && (hint in keys ==> k == hint)
  {
    if hint in keys then hint else var k :| k in keys; k
  }

  /** One session goes, whichever is first; false says there was none. */
  ghost function ShutdownOne(m: Manager, hint: Imsi): (Manager, bool) {
    if m.sessions.Keys == {} then (m, false) else Terminate(m, First(m.sessions.Keys, hint))
  }

  ghost predicate Distinct(order: seq<Imsi>) {
    forall i, j :: 0 <= i < j < |order| ==> order[i] != order[j]
  }

  ghost predicate Enumerates(order: seq<Imsi>, keys: set<Imsi>) {
    Distinct(order) && forall k :: k in order <==> k in keys
  }

  /** An order in which a hash table happens to be walked: any order, by choice
      of hint. */
  ghost function Enumeration(keys: set<Imsi>, hint: seq<Imsi>): (order: seq<Imsi>)
    ensures Enumerates(order, keys) && (Enumerates(hint, keys) ==> order == hint)
  {
    if Enumerates(hint, keys) then hint
    else if keys == {} then assert Enumerates([], keys); []
    else
      var k :| k in keys;
      Enumeration(keys - {k}, []) + [k]
  }

  /** One entry under the iterator of the clean-up. */
  function Visit(m: Manager, imsi: Imsi, now: Instant, timeout: int): Manager {
    if imsi in m.sessions && now - m.sessions[imsi] >= timeout then
      var m' := Delete(m, imsi);
      m'.(stats := m'.stats.(expired := m'.stats.expired + 1))
    else m
  }

  function VisitAll(m: Manager, order: seq<Imsi>, now: Instant, timeout: int): Manager {
    if order == [] then m
    else Visit(VisitAll(m, order[..|order| - 1], now, timeout), order[|order| - 1], now, timeout)
  }

  ghost function Clean(m: Manager, hint: seq<Imsi>, now: Instant, timeout: int): Manager {
    VisitAll(m, Enumeration(m.sessions.Keys, hint), now, timeout)
  }

  function AddToBlacklist(m: Manager, imsi: Imsi): (Manager, bool) {
    if IsValidImsi(imsi) then (m.(blacklist := m.blacklist + {imsi}), imsi !in m.blacklist) else (m, false)
  }

  function StartDraining(m: Manager): Manager {
    m.(draining := true)
  }

  // ----- Runs -----

  datatype Op =
    | CreateOp(imsi: Imsi, now: Instant)
    | TerminateOp(imsi: Imsi)
    | ShutdownOp(first: Imsi)
    | CleanOp(order: seq<Imsi>, now: Instant, timeout: int)
    | BlacklistOp(imsi: Imsi)
    | DrainOp

  ghost function Apply(m: Manager, op: Op): Manager {
    match op
    case CreateOp(imsi, now) => Create(m, imsi, now).0
    case TerminateOp(imsi) => Terminate(m, imsi).0
    case ShutdownOp(first) => ShutdownOne(m, first).0
    case CleanOp(order, now, timeout) => Clean(m, order, now, timeout)
    case BlacklistOp(imsi) => AddToBlacklist(m, imsi).0
    case DrainOp => StartDraining(m)
  }

  ghost function ApplyAll(m: Manager, ops: seq<Op>): Manager
    decreases |ops|
  {
    if ops == [] then m else ApplyAll(Apply(m, ops[0]), ops[1..])
  }
}

/** The CDR log tells the whole story of the sessions and of the counters. */
module SessionLog {
  import opened Sessions

  /** Replaying the log from no sessions at all. */
  function Replay(log: seq<Cdr>): set<Imsi> {
    if log == [] then {}
    else
      var past := Replay(log[..|log| - 1]);
      var e := log[|log| - 1];
      match e.action
      case CREATED => past + {e.imsi}
      case DELETED => past - {e.imsi}
      case _ => past
  }

  function Count(log: seq<Cdr>, action: Action): nat {
    if log == [] then 0
    else Count(log[..|log| - 1], action) + if log[|log| - 1].action == action then 1 else 0
  }

  /** Sessions are created only when inactive and deleted only when active, and
      no ERROR record is ever written. */
  predicate Lawful(log: seq<Cdr>) {
    log != [] ==>
      var past, e := log[..|log| - 1], log[|log| - 1];
      && Lawful(past)
      && match e.action
         case CREATED => e.imsi !in Replay(past)
         case DELETED => e.imsi in Replay(past)
         case REJECTED => true
         case ERROR => false
  }

  ghost predicate CountersAgree(m: Manager) {
    && m.stats.active == |m.sessions|
    && m.stats.created == Count(m.log, CREATED)
    && m.stats.rejected == Count(m.log, REJECTED)
    && m.stats.expired + m.stats.terminated == Count(m.log, DELETED)
    && m.stats.total == m.stats.created + m.stats.rejected
    && m.stats.created == m.stats.active + m.stats.expired + m.stats.terminated
  }

  ghost predicate Inv(m: Manager) {
    Replay(m.log) == m.sessions.Keys && Lawful(m.log) && CountersAgree(m)
  }

  lemma InitialInv(blacklist: set<Imsi>)
    ensures Inv(Initial(blacklist))
  {
  }

  lemma LogSnoc(log: seq<Cdr>, e: Cdr)
    ensures (log + [e])[..|log|] == log && (log + [e])[|log|] == e
  {
  }

  lemma CreateKeepsInv(m: Manager, imsi: Imsi, now: Instant)
    requires Inv(m)
    ensures Inv(Create(m, imsi, now).0)
  {
    if imsi in m.blacklist {
      LogSnoc(m.log, Cdr(imsi, REJECTED));
    } else if imsi !in m.sessions {
      CreatedLog(m, imsi, now);
    }
  }

  lemma CreatedLog(m: Manager, imsi: Imsi, now: Instant)
    requires imsi !in m.sessions && Replay(m.log) == m.sessions.Keys && Lawful(m.log)
    ensures var log := m.log + [Cdr(imsi, CREATED)]; var sessions := m.sessions[imsi := now];
            && Replay(log) == sessions.Keys && Lawful(log)
            && |sessions| == |m.sessions| + 1
            && Count(log, CREATED) == Count(m.log, CREATED) + 1
            && Count(log, DELETED) == Count(m.log, DELETED)
            && Count(log, REJECTED) == Count(m.log, REJECTED)
  {
    LogSnoc(m.log, Cdr(imsi, CREATED));
    var sessions := m.sessions[imsi := now];
    assert sessions.Keys == m.sessions.Keys + {imsi};
    assert |sessions.Keys| == |m.sessions.Keys| + 1;
  }

  lemma DeletedLog(m: Manager, imsi: Imsi)
    requires imsi in m.sessions && Replay(m.log) == m.sessions.Keys && Lawful(m.log)
    ensures var m' := Delete(m, imsi);
            && Replay(m'.log) == m'.sessions.Keys && Lawful(m'.log)
            && |m'.sessions| == |m.sessions| - 1
            && Count(m'.log, DELETED) == Count(m.log, DELETED) + 1
            && Count(m'.log, CREATED) == Count(m.log, CREATED)
            && Count(m'.log, REJECTED) == Count(m.log, REJECTED)
  {
    LogSnoc(m.log, Cdr(imsi, DELETED));
    var sessions := m.sessions - {imsi};
    assert sessions.Keys == m.sessions.Keys - {imsi};
    assert |sessions.Keys| == |m.sessions.Keys| - 1;
  }

  lemma TerminateKeepsInv(m: Manager, imsi: Imsi)
    requires Inv(m)
    ensures Inv(Terminate(m, imsi).0)
  {
    if imsi in m.sessions { DeletedLog(m, imsi); }
  }

  lemma VisitKeepsInv(m: Manager, imsi: Imsi, now: Instant, timeout: int)
    requires Inv(m)
    ensures Inv(Visit(m, imsi, now, timeout))
  {
    if imsi in m.sessions { DeletedLog(m, imsi); }
  }

  lemma {:induction false} VisitAllKeepsInv(m: Manager, order: seq<Imsi>, now: Instant, timeout: int)
    requires Inv(m)
    ensures Inv(VisitAll(m, order, now, timeout))
  {
    if order != [] {
      VisitAllKeepsInv(m, order[..|order| - 1], now, timeout);
      VisitKeepsInv(VisitAll(m, order[..|order| - 1], now, timeout), order[|order| - 1], now, timeout);
    }
  }

  lemma OpKeepsInv(m: Manager, op: Op)
    requires Inv(m)
    ensures Inv(Apply(m, op))
  {
    match op
    case CreateOp(imsi, now) => CreateKeepsInv(m, imsi, now);
    case TerminateOp(imsi) => TerminateKeepsInv(m, imsi);
    case ShutdownOp(first) =>
      if m.sessions.Keys != {} { TerminateKeepsInv(m, First(m.sessions.Keys, first)); }
    case CleanOp(order, now, timeout) =>
      VisitAllKeepsInv(m, Enumeration(m.sessions.Keys, order), now, timeout);
    case _ =>
  }

  /** After any sequence of operations the log replays to the active sessions,
      it is lawful, and the counters are conserved and agree with it. */
  lemma {:induction false} EveryRunKeepsInv(m: Manager, ops: seq<Op>)
    requires Inv(m)
    ensures Inv(ApplyAll(m, ops))
    decreases |ops|
  {
    if ops != [] {
      OpKeepsInv(m, ops[0]);
      EveryRunKeepsInv(Apply(m, ops[0]), ops[1..]);
    }
  }

  // ----- One subscriber's records -----

  /** The CREATED and DELETED records of one IMSI, in order. */
  function Story(log: seq<Cdr>, imsi: Imsi): seq<Action> {
    if log == [] then []
    else
      var e := log[|log| - 1];
      Story(log[..|log| - 1], imsi)
      + if e.imsi == imsi && (e.action == CREATED || e.action == DELETED) then [e.action] else []
  }

  predicate Alternates(story: seq<Action>) {
    forall i :: 0 <= i < |story| ==> story[i] == if i % 2 == 0 then CREATED else DELETED
  }

  /** Per IMSI the records strictly alternate starting with CREATED, and the
      session is active iff the last of them is CREATED. */
  lemma {:induction false} StoriesAlternate(log: seq<Cdr>, imsi: Imsi)
    requires Lawful(log)
    ensures Alternates(Story(log, imsi))
    ensures imsi in Replay(log) <==> |Story(log, imsi)| % 2 == 1
  {
    if log != [] { StoriesAlternate(log[..|log| - 1], imsi); }
  }

  /** Conversely, a log whose stories all alternate is lawful. */
  lemma {:induction false} AlternationIsLawful(log: seq<Cdr>)
    requires forall e :: e in log ==> e.action != ERROR
    requires forall imsi :: Alternates(Story(log, imsi))
    ensures Lawful(log)
  {
    if log != [] {
      var past, e := log[..|log| - 1], log[|log| - 1];
      forall imsi ensures Alternates(Story(past, imsi)) {
        assert Story(past, imsi) <= Story(log, imsi);
        assert Alternates(Story(log, imsi));
      }
      AlternationIsLawful(past);
      StoriesAlternate(past, e.imsi);
      var n := |Story(past, e.imsi)|;
      assert Alternates(Story(log, e.imsi));
      if e.action == CREATED || e.action == DELETED { assert Story(log, e.imsi)[n] == e.action; }
    }
  }

  function CountFor(log: seq<Cdr>, imsi: Imsi, action: Action): nat {
    if log == [] then 0
    else CountFor(log[..|log| - 1], imsi, action) + if log[|log| - 1] == Cdr(imsi, action) then 1 else 0
  }

  /** Each IMSI has as many DELETED as CREATED records, plus one if active. */
  lemma {:induction false} RecordsBalance(log: seq<Cdr>, imsi: Imsi)
    requires Lawful(log)
    ensures CountFor(log, imsi, CREATED) == CountFor(log, imsi, DELETED) + if imsi in Replay(log) then 1 else 0
  {
    if log != [] { RecordsBalance(log[..|log| - 1], imsi); }
  }

  // ----- The clean-up -----

  predicate Aged(m: Manager, imsi: Imsi, now: Instant, timeout: int) {
    imsi in m.sessions && now - m.sessions[imsi] >= timeout
  }

  function AgedIn(m: Manager, order: seq<Imsi>, now: Instant, timeout: int): seq<Imsi> {
    if order == [] then []
    else
      var last := order[|order| - 1];
      AgedIn(m, order[..|order| - 1], now, timeout) + if Aged(m, last, now, timeout) then [last] else []
  }

  function Deletions(ks: seq<Imsi>): seq<Cdr> {
    seq(|ks|, i requires 0 <= i < |ks| => Cdr(ks[i], DELETED))
  }

  lemma DistinctSnoc(ks: seq<Imsi>, k: Imsi)
    requires Distinct(ks) && k !in ks
    ensures Distinct(ks + [k])
  {
  }

  lemma {:induction false} AgedInSelects(m: Manager, order: seq<Imsi>, now: Instant, timeout: int)
    requires Distinct(order)
    ensures var aged := AgedIn(m, order, now, timeout);
            Distinct(aged) && forall k :: k in aged <==> k in order && Aged(m, k, now, timeout)
  {
    if order != [] {
      var before, last := order[..|order| - 1], order[|order| - 1];
      AgedInSelects(m, before, now, timeout);
      var aged := AgedIn(m, before, now, timeout);
      assert forall k :: k in order <==> k in before || k == last;
      assert last !in before;
      DistinctSnoc(aged, last);
      assert forall k :: k in aged + [last] <==> k in aged || k == last;
    }
  }

  function Members(ks: seq<Imsi>): set<Imsi> {
    set k | k in ks
  }

  /** What visiting the entries of `order` leads to, given those aged in it. */
  ghost predicate Visited(m: Manager, m': Manager, aged: seq<Imsi>) {
    && m'.sessions == m.sessions - Members(aged)
    && m'.log == m.log + Deletions(aged)
    && m'.blacklist == m.blacklist && m'.draining == m.draining
    && m'.stats.expired == m.stats.expired + |aged|
  }

  lemma VisitedSnoc(m: Manager, m': Manager, aged: seq<Imsi>, last: Imsi, now: Instant, timeout: int)
    requires Visited(m, m', aged) && last !in aged
    ensures Visited(m, Visit(m', last, now, timeout),
                    aged + if Aged(m, last, now, timeout) then [last] else [])
  {
    if Aged(m, last, now, timeout) {
      assert Deletions(aged + [last]) == Deletions(aged) + [Cdr(last, DELETED)];
      assert Members(aged + [last]) == Members(aged) + {last};
      assert m.sessions - Members(aged) - {last} == m.sessions - (Members(aged) + {last});
    } else {
      assert aged + [] == aged;
    }
  }

  lemma {:induction false} VisitAllEffect(m: Manager, order: seq<Imsi>, now: Instant, timeout: int)
    requires Distinct(order)
    ensures Visited(m, VisitAll(m, order, now, timeout), AgedIn(m, order, now, timeout))
  {
    if order == [] {
      assert m.sessions - Members([]) == m.sessions;
    } else {
      var before, last := order[..|order| - 1], order[|order| - 1];
      VisitAllEffect(m, before, now, timeout);
      AgedInSelects(m, before, now, timeout);
      assert last !in before;
      VisitedSnoc(m, VisitAll(m, before, now, timeout), AgedIn(m, before, now, timeout), last, now, timeout);
    }
  }

  /** Whatever the iteration order, a clean-up leaves exactly the sessions
      younger than the timeout at the sampled time. */
  lemma CleanLeavesTheYoung(m: Manager, hint: seq<Imsi>, now: Instant, timeout: int)
    ensures var m' := Clean(m, hint, now, timeout);
            && m'.blacklist == m.blacklist && m'.draining == m.draining
            && m'.sessions.Keys <= m.sessions.Keys
            && forall k :: k in m.sessions ==>
                 && (k in m'.sessions <==> now - m.sessions[k] < timeout)
                 && (k in m'.sessions ==> m'.sessions[k] == m.sessions[k])
  {
    var order := Enumeration(m.sessions.Keys, hint);
    VisitAllEffect(m, order, now, timeout);
    AgedInSelects(m, order, now, timeout);
  }

  /** The sessions a clean-up removes, in the order of their removal. */
  ghost function Removed(m: Manager, hint: seq<Imsi>, now: Instant, timeout: int): seq<Imsi> {
    AgedIn(m, Enumeration(m.sessions.Keys, hint), now, timeout)
  }

  /** A clean-up writes exactly one DELETED record per session removed, nothing
      else, and counts each of them as expired. */
  lemma CleanRecordsEachOnce(m: Manager, hint: seq<Imsi>, now: Instant, timeout: int)
    ensures var m' := Clean(m, hint, now, timeout); var removed := Removed(m, hint, now, timeout);
            && Distinct(removed) && (forall k :: k in removed <==> k in m.sessions && k !in m'.sessions)
            && m'.log == m.log + Deletions(removed)
            && m'.stats.expired == m.stats.expired + |removed|
  {
    var order := Enumeration(m.sessions.Keys, hint);
    VisitAllEffect(m, order, now, timeout);
    AgedInSelects(m, order, now, timeout);
  }
}
