/** The token lock around index updates of the warm-up registry, as steps of any number of processes
    that interleave freely. */
module WarmupLock {
  import opened Sequences

  type Process = nat
  type Token = nat
  type Member = string

  datatype Update = Add(member: Member) | Remove(member: Member)

  function Apply(update: Update, index: set<Member>): set<Member> {
    match update
    case Add(m) => index + {m}
    case Remove(m) => index - {m}
  }

  /** Where a process is in `_locked_index_update`. `Checked` is the non-atomic release between its
      last token comparison and its delete. */
  datatype Phase =
    | Outside
    | Waiting(update: Update, token: Token)
    | Entered(update: Update, token: Token)
    | HasRead(update: Update, token: Token, snapshot: set<Member>)
    | HasWritten(token: Token)
    | Checked(token: Token)
  {
    predicate Inside() { Entered? || HasRead? || HasWritten? || Checked? }
  }

  /** One acquisition of the lock, and whether its update was written. */
  datatype Acquisition = Acquisition(token: Token, update: Update, committed: bool)

  datatype State = State(
    lock: Option<Token>,
    index: set<Member>,
    phases: map<Process, Phase>,
    unused: Token,
    log: seq<Acquisition>,
    expired: set<Token>)
  {
    function Phase(p: Process): Phase {
      if p in phases then phases[p] else Outside
    }
  }

  datatype Event =
    | Start(p: Process, update: Update)
    | Acquire(p: Process)
    | GiveUp(p: Process)
    | Read(p: Process)
    | Write(p: Process)
    | Release(p: Process)
    | CheckToken(p: Process)
    | DeleteLock(p: Process)
    | Expire

  function Init(index: set<Member>): State {
    State(None, index, map[], 0, [], {})
  }

  function Committed(log: seq<Acquisition>, token: Token): seq<Acquisition> {
    if log == [] then []
    else [if log[0].token == token then log[0].(committed := true) else log[0]] + Committed(log[1..], token)
  }

  /** One atomic cache operation of one process, or the expiry of the lock entry. None: not enabled. */
  function Step(s: State, e: Event): Option<State> {
    match e
    case Start(p, update) =>
      if s.Phase(p).Outside? then Some(s.(phases := s.phases[p := Waiting(update, s.unused)], unused := s.unused + 1))
      else None
    case Acquire(p) =>
      if s.Phase(p).Waiting? && s.lock.None? then
        var w := s.Phase(p);
        Some(s.(lock := Some(w.token), phases := s.phases[p := Entered(w.update, w.token)],
                log := s.log + [Acquisition(w.token, w.update, false)]))
      else None
    case GiveUp(p) =>
      if s.Phase(p).Waiting? && s.lock.Some? then Some(s.(phases := s.phases[p := Outside])) else None
    case Read(p) =>
      if s.Phase(p).Entered? then
        Some(s.(phases := s.phases[p := HasRead(s.Phase(p).update, s.Phase(p).token, s.index)]))
      else None
    case Write(p) =>
      if s.Phase(p).HasRead? then
        Some(s.(index := Apply(s.Phase(p).update, s.Phase(p).snapshot),
                phases := s.phases[p := HasWritten(s.Phase(p).token)],
                log := Committed(s.log, s.Phase(p).token)))
      else None
    case Release(p) =>
      if s.Phase(p).Inside() && !s.Phase(p).Checked? then
        Some(s.(lock := if s.lock == Some(s.Phase(p).token) then None else s.lock,
                phases := s.phases[p := Outside]))
      else None
    case CheckToken(p) =>
      if s.Phase(p).Inside() && !s.Phase(p).Checked? then
        var token := s.Phase(p).token;
        Some(s.(phases := s.phases[p := if s.lock == Some(token) then Checked(token) else Outside]))
      else None
    case DeleteLock(p) =>
      if s.Phase(p).Checked? then Some(s.(lock := None, phases := s.phases[p := Outside])) else None
    case Expire =>
      if s.lock.Some? then Some(s.(lock := None, expired := s.expired + {s.lock.value})) else None
  }

  function Run(s: State, events: seq<Event>): Option<State>
    decreases events
  {
    if events == [] then Some(s)
    else match Step(s, events[0])
      case None => None
      case Some(next) => Run(next, events[1..])
  }

  /** The index after the committed updates of a log, in acquisition order. */
  function Replay(index: set<Member>, log: seq<Acquisition>): set<Member> {
    if log == [] then index
    else
      var last := log[|log| - 1];
      var before := Replay(index, log[..|log| - 1]);
      if last.committed then Apply(last.update, before) else before
  }

  // ----- tokens

  ghost predicate PhaseTokens(s: State) {
    && (forall p :: !s.Phase(p).Outside? ==> s.Phase(p).token < s.unused)
    && (forall p, q :: p != q && !s.Phase(p).Outside? && !s.Phase(q).Outside? ==> s.Phase(p).token != s.Phase(q).token)
    && (s.lock.Some? ==> s.lock.value < s.unused)
    && (forall t :: t in s.expired ==> t < s.unused)
    && (forall p :: s.Phase(p).Waiting? ==> s.lock != Some(s.Phase(p).token) && s.Phase(p).token !in s.expired)
  }

  ghost predicate LogTokens(s: State) {
    && (forall i :: 0 <= i < |s.log| ==> s.log[i].token < s.unused)
    && (forall i, j :: 0 <= i < j < |s.log| ==> s.log[i].token != s.log[j].token)
    && (forall p, i :: s.Phase(p).Waiting? && 0 <= i < |s.log| ==> s.log[i].token != s.Phase(p).token)
  }

  /** Tokens are unique: per process, and in the log. */
  ghost predicate Tokens(s: State) { PhaseTokens(s) && LogTokens(s) }

  lemma {:induction false} CommittedKeeps(log: seq<Acquisition>, token: Token)
    ensures |Committed(log, token)| == |log|
    ensures forall i :: 0 <= i < |log| ==>
              Committed(log, token)[i] == if log[i].token == token then log[i].(committed := true) else log[i]
  {
    if log != [] {
      CommittedKeeps(log[1..], token);
    }
  }

  /** A step changes the phase of the process that takes it, and of no other. */
  lemma OthersStay(s: State, e: Event)
    requires Step(s, e).Some?
    ensures forall q :: e.Expire? || q != e.p ==> Step(s, e).value.Phase(q) == s.Phase(q)
    ensures !e.Expire? ==> Step(s, e).value.phases == s.phases[e.p := Step(s, e).value.Phase(e.p)]
  {
  }

  lemma PhaseTokensKept(s: State, e: Event)
    requires Tokens(s) && Step(s, e).Some?
    ensures PhaseTokens(Step(s, e).value)
  {
    OthersStay(s, e);
  }

  lemma LogTokensKept(s: State, e: Event)
    requires Tokens(s) && Step(s, e).Some?
    ensures LogTokens(Step(s, e).value)
  {
    OthersStay(s, e);
    if e.Write? {
      CommittedKeeps(s.log, s.Phase(e.p).token);
    }
  }

  lemma TokensKept(s: State, e: Event)
    requires Tokens(s) && Step(s, e).Some?
    ensures Tokens(Step(s, e).value)
  {
    PhaseTokensKept(s, e);
    LogTokensKept(s, e);
  }

  // ----- no expiry inside: mutual exclusion and no lost update

  /** The lock does not expire while its holder is inside. */
  ghost predicate ExpiresOutside(s: State, e: Event) {
    e.Expire? ==> forall p :: s.Phase(p).Inside() ==> s.lock != Some(s.Phase(p).token)
  }

  ghost predicate NeverExpiresInside(s: State, events: seq<Event>)
    decreases events
  {
    events != [] ==>
      ExpiresOutside(s, events[0])
      && (Step(s, events[0]).Some? ==> NeverExpiresInside(Step(s, events[0]).value, events[1..]))
  }

  ghost predicate Alone(s: State) {
    forall p, q :: s.Phase(p).Inside() && s.Phase(q).Inside() ==> p == q
  }

  ghost predicate Exclusive(s: State, initial: set<Member>) {
    && Tokens(s)
    && Alone(s)
    && (forall p :: s.Phase(p).Inside() ==> Holder(s, p))
    && s.index == Replay(initial, s.log)
  }

  /** The process inside holds the lock and made the last acquisition; what it read is current. */
  ghost predicate Holder(s: State, p: Process)
    requires s.Phase(p).Inside()
  {
    var phase := s.Phase(p);
    && s.lock == Some(phase.token)
    && s.log != [] && s.log[|s.log| - 1].token == phase.token
    && (phase.Entered? || phase.HasRead? ==>
          s.log[|s.log| - 1] == Acquisition(phase.token, phase.update, false))
    && (phase.HasRead? ==> phase.snapshot == s.index)
  }

  lemma AloneKept(s: State, e: Event, initial: set<Member>)
    requires Exclusive(s, initial) && ExpiresOutside(s, e) && Step(s, e).Some?
    ensures Alone(Step(s, e).value)
  {
    OthersStay(s, e);
    if e.Acquire? {
      assert forall p :: !s.Phase(p).Inside();
    }
  }

  lemma HolderKept(s: State, e: Event, initial: set<Member>, p: Process)
    requires Exclusive(s, initial) && ExpiresOutside(s, e) && Step(s, e).Some?
    requires Step(s, e).value.Phase(p).Inside()
    ensures Holder(Step(s, e).value, p)
  {
    OthersStay(s, e);
    if e != Acquire(p) {
      assert s.Phase(p).Inside() && Holder(s, p);
      if e.Write? {
        CommittedKeeps(s.log, s.Phase(e.p).token);
      }
    }
  }

  lemma IndexKept(s: State, e: Event, initial: set<Member>)
    requires Exclusive(s, initial) && Step(s, e).Some?
    ensures Step(s, e).value.index == Replay(initial, Step(s, e).value.log)
  {
    var t := Step(s, e).value;
    if e.Acquire? {
      assert t.log[..|t.log| - 1] == s.log;
    } else if e.Write? {
      var last := |s.log| - 1;
      CommittedKeeps(s.log, s.Phase(e.p).token);
      assert Holder(s, e.p);
      assert t.log[..last] == s.log[..last];
    }
  }

  lemma ExclusiveKept(s: State, e: Event, initial: set<Member>)
    requires Exclusive(s, initial) && ExpiresOutside(s, e) && Step(s, e).Some?
    ensures Exclusive(Step(s, e).value, initial)
  {
    TokensKept(s, e);
    AloneKept(s, e, initial);
    IndexKept(s, e, initial);
    forall p | Step(s, e).value.Phase(p).Inside() ensures Holder(Step(s, e).value, p) {
      HolderKept(s, e, initial, p);
    }
  }

  /** In every interleaving in which no lock expires inside, at most one process is inside and the
      index is the replay of the committed updates in the order in which the lock was acquired. */
  lemma {:induction false} NoLostUpdate(s: State, events: seq<Event>, initial: set<Member>)
    requires Exclusive(s, initial) && NeverExpiresInside(s, events)
    ensures Run(s, events).Some? ==> Exclusive(Run(s, events).value, initial)
    decreases events
  {
    if events != [] && Step(s, events[0]).Some? {
      ExclusiveKept(s, events[0], initial);
      NoLostUpdate(Step(s, events[0]).value, events[1..], initial);
    }
  }

  lemma RunFromScratch(index: set<Member>, events: seq<Event>)
    requires NeverExpiresInside(Init(index), events) && Run(Init(index), events).Some?
    ensures var s := Run(Init(index), events).value;
            Alone(s) && s.index == Replay(index, s.log)
  {
    NoLostUpdate(Init(index), events, index);
  }

  /** The update adds its member or removes it, and touches no other. */
  ghost predicate Effects(update: Update, before: set<Member>, after: set<Member>) {
    forall m :: m in after <==> if m == update.member then update.Add? else m in before
  }

  /** In every such interleaving a write takes effect on the index as it is then, and is committed. */
  lemma WriteTakesEffect(s: State, p: Process, initial: set<Member>)
    requires Exclusive(s, initial) && Step(s, Write(p)).Some?
    ensures var t := Step(s, Write(p)).value;
            && Effects(s.Phase(p).update, s.index, t.index)
            && |t.log| == |s.log| > 0 && t.log[|t.log| - 1] == Acquisition(s.Phase(p).token, s.Phase(p).update, true)
  {
    assert Holder(s, p);
    CommittedKeeps(s.log, s.Phase(p).token);
  }

  /** A waiting process gets in when the lock is free and can only give up when it is not; one that is inside
      comes out by a release only. */
  lemma WaitsAndLeaves(s: State, e: Event, p: Process)
    requires Step(s, e).Some?
    ensures s.Phase(p).Waiting? ==> (Step(s, Acquire(p)).Some? <==> s.lock.None?)
                                    && (Step(s, GiveUp(p)).Some? <==> s.lock.Some?)
    ensures s.Phase(p).Inside() && !Step(s, e).value.Phase(p).Inside()
            ==> e == Release(p) || e == CheckToken(p) || e == DeleteLock(p)
    ensures !s.Phase(p).Inside() && Step(s, e).value.Phase(p).Inside() ==> e == Acquire(p)
  {
    OthersStay(s, e);
  }

  /** A process that finds the lock free can carry its update through; then the lock is free again. */
  lemma UpdateRuns(s: State, p: Process, update: Update, initial: set<Member>)
    requires Exclusive(s, initial) && s.Phase(p).Outside? && s.lock.None?
    ensures var run := Run(s, [Start(p, update), Acquire(p), Read(p), Write(p), Release(p)]);
            && run.Some? && Effects(update, s.index, run.value.index)
            && run.value.lock.None? && run.value.Phase(p).Outside?
            && |run.value.log| == |s.log| + 1 && run.value.log[|s.log|] == Acquisition(s.unused, update, true)
  {
    var started, acquired := EnteredFrom(s, p, update);
    var read, written, released := LeftFrom(acquired, p, update, s.unused);
    CommittedKeeps(acquired.log, s.unused);
    RunFive(s, Start(p, update), Acquire(p), Read(p), Write(p), Release(p), started, acquired, read, written, released);
  }

  lemma EnteredFrom(s: State, p: Process, update: Update) returns (started: State, acquired: State)
    requires s.Phase(p).Outside? && s.lock.None?
    ensures Step(s, Start(p, update)) == Some(started) && Step(started, Acquire(p)) == Some(acquired)
    ensures acquired.Phase(p) == Entered(update, s.unused) && acquired.lock == Some(s.unused)
    ensures acquired.index == s.index && acquired.log == s.log + [Acquisition(s.unused, update, false)]
  {
    started := Step(s, Start(p, update)).value;
    acquired := Step(started, Acquire(p)).value;
  }

  lemma LeftFrom(s: State, p: Process, update: Update, token: Token)
    returns (read: State, written: State, released: State)
    requires s.Phase(p) == Entered(update, token) && s.lock == Some(token)
    ensures Step(s, Read(p)) == Some(read) && Step(read, Write(p)) == Some(written)
    ensures Step(written, Release(p)) == Some(released)
    ensures Effects(update, s.index, released.index) && released.log == Committed(s.log, token)
    ensures released.lock.None? && released.Phase(p).Outside?
  {
    read := Step(s, Read(p)).value;
    written := Step(read, Write(p)).value;
    released := Step(written, Release(p)).value;
  }

  lemma RunFive(s: State, a: Event, b: Event, c: Event, d: Event, e: Event, s1: State, s2: State, s3: State, s4: State,
                s5: State)
    requires Step(s, a) == Some(s1) && Step(s1, b) == Some(s2) && Step(s2, c) == Some(s3) && Step(s3, d) == Some(s4)
    requires Step(s4, e) == Some(s5)
    ensures Run(s, [a, b, c, d, e]) == Some(s5)
  {
    RunFirst(s4, e, []);
    RunFirst(s3, d, [e]);
    RunFirst(s2, c, [d, e]);
    RunFirst(s1, b, [c, d, e]);
    RunFirst(s, a, [b, c, d, e]);
    assert [e] + [] == [e] && [d] + [e] == [d, e] && [c] + [d, e] == [c, d, e];
    assert [b] + [c, d, e] == [b, c, d, e] && [a] + [b, c, d, e] == [a, b, c, d, e];
  }

  /** The last committed update about a member. */
  function LastAbout(log: seq<Acquisition>, m: Member): Option<Update> {
    if log == [] then None
    else
      var last := log[|log| - 1];
      if last.committed && last.update.member == m then Some(last.update) else LastAbout(log[..|log| - 1], m)
  }

  /** A member is in the replayed index iff the last committed update about it added it, or there was
      none and it was there before. */
  lemma {:induction false} ReplayMembership(index: set<Member>, log: seq<Acquisition>, m: Member)
    ensures m in Replay(index, log)
       <==> match LastAbout(log, m) case None => m in index case Some(update) => update.Add?
  {
    if log != [] {
      ReplayMembership(index, log[..|log| - 1], m);
    }
  }

  // ----- any expiry

  /** A delete of the non-atomic release that hits another token's lock. */
  ghost predicate Foreign(s: State, e: Event) {
    e.DeleteLock? && s.Phase(e.p).Checked? && s.lock.Some? && s.lock.value != s.Phase(e.p).token
  }

  ghost predicate NeverForeign(s: State, events: seq<Event>)
    decreases events
  {
    events != [] ==>
      !Foreign(s, events[0])
      && (Step(s, events[0]).Some? ==> NeverForeign(Step(s, events[0]).value, events[1..]))
  }

  predicate AtomicRelease(e: Event) { !e.CheckToken? && !e.DeleteLock? }

  /** With compare-and-delete releases only, no delete is foreign. */
  lemma {:induction false} AtomicIsNeverForeign(s: State, events: seq<Event>)
    requires forall e :: e in events ==> AtomicRelease(e)
    ensures NeverForeign(s, events)
    decreases events
  {
    if events != [] && Step(s, events[0]).Some? {
      assert events[0] in events;
      AtomicIsNeverForeign(Step(s, events[0]).value, events[1..]);
    }
  }

  /** `p` acquired the lock before `q` did. */
  ghost predicate Earlier(s: State, p: Process, q: Process)
    requires s.Phase(p).Inside() && s.Phase(q).Inside()
  {
    exists i, j :: 0 <= i < j < |s.log| && s.log[i].token == s.Phase(p).token && s.log[j].token == s.Phase(q).token
  }

  ghost predicate Logged(s: State, p: Process)
    requires s.Phase(p).Inside()
  {
    exists i :: 0 <= i < |s.log| && s.log[i].token == s.Phase(p).token
  }

  ghost predicate Leased(s: State) {
    && Tokens(s)
    && (forall p :: s.Phase(p).Inside() ==> Logged(s, p))
    && (forall p :: s.Phase(p).Inside() ==> s.Phase(p).token in s.expired || s.lock == Some(s.Phase(p).token))
    && (forall p, q :: p != q && s.Phase(p).Inside() && s.Phase(q).Inside() && Earlier(s, p, q)
                       ==> s.Phase(p).token in s.expired)
  }

  lemma LoggedKept(s: State, e: Event, p: Process)
    requires Leased(s) && !Foreign(s, e) && Step(s, e).Some?
    requires Step(s, e).value.Phase(p).Inside()
    ensures Logged(Step(s, e).value, p)
    ensures e != Acquire(p) ==> s.Phase(p).Inside() && s.Phase(p).token == Step(s, e).value.Phase(p).token
  {
    var t := Step(s, e).value;
    OthersStay(s, e);
    LogGrows(s, e);
    if e == Acquire(p) {
      assert t.log[|s.log|].token == t.Phase(p).token;
    } else {
      assert s.Phase(p).Inside() && Logged(s, p);
      var i :| 0 <= i < |s.log| && s.log[i].token == s.Phase(p).token;
      assert t.log[i].token == t.Phase(p).token;
    }
  }

  lemma LeaseKept(s: State, e: Event, p: Process)
    requires Leased(s) && !Foreign(s, e) && Step(s, e).Some?
    requires Step(s, e).value.Phase(p).Inside()
    ensures var t := Step(s, e).value; t.Phase(p).token in t.expired || t.lock == Some(t.Phase(p).token)
  {
    OthersStay(s, e);
    LoggedKept(s, e, p);
  }

  /** An order of two processes that are both inside already is an old one. */
  lemma EarlierBefore(s: State, e: Event, p: Process, q: Process)
    requires Leased(s) && !Foreign(s, e) && Step(s, e).Some? && e != Acquire(p) && e != Acquire(q)
    requires var t := Step(s, e).value; Tokens(t) && t.Phase(p).Inside() && t.Phase(q).Inside() && Earlier(t, p, q)
    ensures s.Phase(p).Inside() && s.Phase(q).Inside() && Earlier(s, p, q)
  {
    var t := Step(s, e).value;
    LogGrows(s, e);
    LoggedKept(s, e, p);
    LoggedKept(s, e, q);
    var i, j :| 0 <= i < j < |t.log| && t.log[i].token == t.Phase(p).token && t.log[j].token == t.Phase(q).token;
    var k :| 0 <= k < |s.log| && s.log[k].token == s.Phase(q).token;
    assert t.log[k].token == t.log[j].token;
    assert k == j;
  }

  /** The latest acquisition is the last one of the log. */
  lemma AcquirerIsLast(s: State, e: Event, p: Process, q: Process)
    requires Leased(s) && !Foreign(s, e) && Step(s, e).Some? && e == Acquire(p) && p != q
    requires var t := Step(s, e).value; Tokens(t) && t.Phase(p).Inside() && t.Phase(q).Inside()
    ensures !Earlier(Step(s, e).value, p, q)
  {
    var t := Step(s, e).value;
    var last := |t.log| - 1;
    assert t.log[last].token == t.Phase(p).token;
    assert forall i :: 0 <= i < |t.log| && t.log[i].token == t.Phase(p).token ==> i == last;
  }

  lemma OverlapKept(s: State, e: Event, p: Process, q: Process)
    requires Leased(s) && !Foreign(s, e) && Step(s, e).Some? && p != q
    requires var t := Step(s, e).value; Tokens(t) && t.Phase(p).Inside() && t.Phase(q).Inside() && Earlier(t, p, q)
    ensures Step(s, e).value.Phase(p).token in Step(s, e).value.expired
  {
    if e == Acquire(p) {
      AcquirerIsLast(s, e, p, q);
    } else {
      OthersStay(s, e);
      LoggedKept(s, e, p);
      if e == Acquire(q) {
        assert s.Phase(p).Inside() && s.lock.None?;
      } else {
        EarlierBefore(s, e, p, q);
      }
    }
  }

  lemma LeasedKept(s: State, e: Event)
    requires Leased(s) && !Foreign(s, e) && Step(s, e).Some?
    ensures Leased(Step(s, e).value)
  {
    var t := Step(s, e).value;
    TokensKept(s, e);
    forall p | t.Phase(p).Inside()
      ensures Logged(t, p)
      ensures t.Phase(p).token in t.expired || t.lock == Some(t.Phase(p).token)
    {
      LoggedKept(s, e, p);
      LeaseKept(s, e, p);
    }
    forall p, q | p != q && t.Phase(p).Inside() && t.Phase(q).Inside() && Earlier(t, p, q)
      ensures t.Phase(p).token in t.expired
    {
      OverlapKept(s, e, p, q);
    }
  }

  /** Acquisitions are appended, and never change their token. */
  lemma LogGrows(s: State, e: Event)
    requires Step(s, e).Some?
    ensures |s.log| <= |Step(s, e).value.log|
    ensures forall i :: 0 <= i < |s.log| ==> Step(s, e).value.log[i].token == s.log[i].token
    ensures |Step(s, e).value.log| > |s.log| <==> e.Acquire?
  {
    if e.Write? {
      CommittedKeeps(s.log, s.Phase(e.p).token);
    }
  }

  lemma {:induction false} LeasedThroughout(s: State, events: seq<Event>)
    requires Leased(s) && NeverForeign(s, events)
    ensures Run(s, events).Some? ==> Leased(Run(s, events).value)
    decreases events
  {
    if events != [] && Step(s, events[0]).Some? {
      LeasedKept(s, events[0]);
      LeasedThroughout(Step(s, events[0]).value, events[1..]);
    }
  }

  lemma OverlapWithoutForeign(index: set<Member>, events: seq<Event>, p: Process, q: Process)
    requires NeverForeign(Init(index), events) && Run(Init(index), events).Some? && p != q
    ensures var s := Run(Init(index), events).value;
            s.Phase(p).Inside() && s.Phase(q).Inside() ==>
              (Earlier(s, p, q) && s.Phase(p).token in s.expired) || (Earlier(s, q, p) && s.Phase(q).token in s.expired)
  {
    LeasedThroughout(Init(index), events);
    var s := Run(Init(index), events).value;
    if s.Phase(p).Inside() && s.Phase(q).Inside() {
      var i :| 0 <= i < |s.log| && s.log[i].token == s.Phase(p).token;
      var j :| 0 <= j < |s.log| && s.log[j].token == s.Phase(q).token;
      assert i != j;
      assert if i < j then Earlier(s, p, q) else Earlier(s, q, p);
    }
  }

  ghost predicate OnlyHolder(s: State, p: Process, token: Token) {
    && s.Phase(p).Inside() && s.Phase(p).token == token
    && forall q :: q != p && !s.Phase(q).Outside? ==> s.Phase(q).token != token
  }

  /** Whatever expires: when two processes are inside, the lock of the earlier one has expired, provided
      every release compares and deletes in one step. */
  lemma OverlapNeedsExpiry(index: set<Member>, events: seq<Event>, p: Process, q: Process)
    requires (forall e :: e in events ==> AtomicRelease(e)) && Run(Init(index), events).Some? && p != q
    ensures var s := Run(Init(index), events).value;
            s.Phase(p).Inside() && s.Phase(q).Inside() ==>
              (Earlier(s, p, q) && s.Phase(p).token in s.expired) || (Earlier(s, q, p) && s.Phase(q).token in s.expired)
  {
    AtomicIsNeverForeign(Init(index), events);
    OverlapWithoutForeign(index, events, p, q);
  }

  /** Whatever expires: with such releases a lock entry disappears only by expiring or by the release of
      the process that acquired it, and no other process carries its token. */
  lemma LocksAreOnlyReleasedByOwners(index: set<Member>, events: seq<Event>, e: Event)
    requires (forall e' :: e' in events ==> AtomicRelease(e')) && AtomicRelease(e)
    requires Run(Init(index), events).Some? && Step(Run(Init(index), events).value, e).Some?
    ensures var s := Run(Init(index), events).value;
            var t := Step(s, e).value;
            s.lock.Some? && t.lock != s.lock ==>
              t.lock.None? && (e.Expire? || (e.Release? && OnlyHolder(s, e.p, s.lock.value)))
  {
    AtomicIsNeverForeign(Init(index), events);
    LeasedThroughout(Init(index), events);
  }

  /** The first foreign delete of a run is made by a process whose own lock has expired. */
  lemma ForeignDeleteNeedsExpiry(index: set<Member>, events: seq<Event>, p: Process)
    requires NeverForeign(Init(index), events) && Run(Init(index), events).Some?
    ensures var s := Run(Init(index), events).value;
            Foreign(s, DeleteLock(p)) ==> s.Phase(p).token in s.expired
  {
    LeasedThroughout(Init(index), events);
  }

  // ----- what the hypotheses are for

  lemma RunFirst(s: State, e: Event, events: seq<Event>)
    requires Step(s, e).Some?
    ensures Run(s, [e] + events) == Run(Step(s, e).value, events)
  {
    assert ([e] + events)[1..] == events;
  }

  predicate Changes(update: Update, index: set<Member>) {
    match update case Add(m) => m !in index case Remove(m) => m in index
  }

  /** The steps by which the lock of `p` expires after its read, and `q` gets in before it writes. */
  function Overtaking(p: Process, q: Process): seq<Event> {
    [Expire] + ([Acquire(q)] + ([Read(q)] + ([Write(q)] + ([Write(p)] + []))))
  }

  function OvertakenLog(s: State, p: Process, q: Process): seq<Acquisition>
    requires s.Phase(p).HasRead? && s.Phase(q).Waiting?
  {
    var entered := s.log + [Acquisition(s.Phase(q).token, s.Phase(q).update, false)];
    Committed(Committed(entered, s.Phase(q).token), s.Phase(p).token)
  }

  lemma OvertakingRuns(s: State, p: Process, q: Process)
    requires p != q && s.Phase(p).HasRead? && s.lock.Some? && s.Phase(q).Waiting?
    ensures var t := Run(s, Overtaking(p, q));
            && t.Some?
            && t.value.index == Apply(s.Phase(p).update, s.Phase(p).snapshot)
            && t.value.log == OvertakenLog(s, p, q)
  {
    var s1 := Step(s, Expire).value;
    var s2 := Step(s1, Acquire(q)).value;
    var s3 := Step(s2, Read(q)).value;
    var s4 := Step(s3, Write(q)).value;
    RunFirst(s, Expire, [Acquire(q)] + ([Read(q)] + ([Write(q)] + ([Write(p)] + []))));
    RunFirst(s1, Acquire(q), [Read(q)] + ([Write(q)] + ([Write(p)] + [])));
    RunFirst(s2, Read(q), [Write(q)] + ([Write(p)] + []));
    RunFirst(s3, Write(q), [Write(p)] + []);
    RunFirst(s4, Write(p), []);
  }

  lemma OvertakenLogReplays(s: State, p: Process, q: Process, initial: set<Member>)
    requires Exclusive(s, initial) && s.Phase(p).HasRead? && s.Phase(q).Waiting?
    ensures Replay(initial, OvertakenLog(s, p, q)) == Apply(s.Phase(q).update, Apply(s.Phase(p).update, s.index))
  {
    assert Holder(s, p);
    var n := |s.log|;
    var last := s.log[n - 1];
    var entered := s.log + [Acquisition(s.Phase(q).token, s.Phase(q).update, false)];
    CommittedKeeps(entered, s.Phase(q).token);
    CommittedKeeps(Committed(entered, s.Phase(q).token), s.Phase(p).token);
    var log := OvertakenLog(s, p, q);
    assert log[n] == Acquisition(s.Phase(q).token, s.Phase(q).update, true) && log[n - 1] == last.(committed := true);
    assert log[..n][..n - 1] == s.log[..n - 1];
    assert log[..n][n - 1] == log[n - 1];
    assert Replay(initial, log[..n]) == Apply(s.Phase(p).update, s.index);
  }

  /** From any state that the lock has kept consistent: when the lock of `p` expires after its read and
      another process then commits, the index is no longer the replay of the committed updates iff that
      update should change it. */
  lemma ExpiryLosesAnUpdate(s: State, p: Process, q: Process, initial: set<Member>)
    requires Exclusive(s, initial) && s.Phase(p).HasRead? && s.lock == Some(s.Phase(p).token) && s.Phase(q).Waiting?
    ensures var t := Run(s, Overtaking(p, q));
            && t.Some?
            && t.value.index == Apply(s.Phase(p).update, s.index)
            && Replay(initial, t.value.log) == Apply(s.Phase(q).update, t.value.index)
            && (t.value.index != Replay(initial, t.value.log) <==> Changes(s.Phase(q).update, t.value.index))
  {
    assert Holder(s, p);
    OvertakingRuns(s, p, q);
    OvertakenLogReplays(s, p, q, initial);
  }

  /** When the lock of `p` expires between the token comparison and the delete of its non-atomic
      release, the delete removes the lock that another process has acquired since. */
  lemma NonAtomicReleaseCanRemoveAnothersLock(s: State, p: Process, q: Process)
    requires Tokens(s) && p != q && s.Phase(p).Inside() && !s.Phase(p).Checked? && s.lock == Some(s.Phase(p).token)
    requires s.Phase(q).Waiting?
    ensures var events := [CheckToken(p)] + ([Expire] + ([Acquire(q)] + ([DeleteLock(p)] + [])));
            var t := Run(s, events);
            t.Some? && t.value.Phase(q).Entered? && t.value.lock.None? && t.value.Phase(q).token !in t.value.expired
  {
    var s1 := Step(s, CheckToken(p)).value;
    var s2 := Step(s1, Expire).value;
    var s3 := Step(s2, Acquire(q)).value;
    RunFirst(s, CheckToken(p), [Expire] + ([Acquire(q)] + ([DeleteLock(p)] + [])));
    RunFirst(s1, Expire, [Acquire(q)] + ([DeleteLock(p)] + []));
    RunFirst(s2, Acquire(q), [DeleteLock(p)] + []);
    RunFirst(s3, DeleteLock(p), []);
  }
}
