/** Fairness does not end the elections of a group with two members that the orders rank differently, even when
    every message is handled, in order, and every election coroutine is resumed in every round. */
module ElectionContests {
  import opened Uuids
  import opened Timers
  import opened ElectionServer
  import opened ElectionGroup
  import opened ElectionClocks
  import opened ElectionTermination
  import opened ElectionLoops
  import opened ElectionAgreement
  import opened ElectionFinish
  import opened ElectionFollowers
  import opened ElectionFairness

  /** A round at one clock reading in which every message is handled, in order, every running election coroutine
      is resumed, and no server is in an election all the time. */
  ghost predicate StrictRound(g: Group, es: seq<Event>, t: int) {
    && RunsInOrder(g, es) && Unprompted(es) && AllAt(es, t)
    && g.flight == [] && RunOf(g, es).flight == []
    && (forall s :: s in g.servers && g.servers[s].co == CoRunning ==> Resume(s, t) in es)
    && (forall s :: s in g.servers ==> !InElectionThroughout(g, es, s))
  }

  /** One such round at every tick of the clock. */
  ghost predicate StrictRounds(g: Group, rounds: seq<seq<Event>>, t: int)
    decreases |rounds|
  {
    rounds == [] || (StrictRound(g, rounds[0], t) && StrictRounds(RunOf(g, rounds[0]), rounds[1..], t + 1))
  }

  lemma {:induction false} StrictIsFair(g: Group, rounds: seq<seq<Event>>, t: int)
    requires StrictRounds(g, rounds, t)
    ensures FairRounds(g, rounds)
    decreases |rounds|
  {
    if rounds != [] {
      StrictIsFair(RunOf(g, rounds[0]), rounds[1..], t + 1);
    }
  }

  // ----- the round: everyone that can claim does, b last

  ghost predicate AllResume(es: seq<Event>, among: seq<Uuid>, t: int) {
    forall i :: 0 <= i < |es| ==> es[i].Resume? && es[i].s in among && es[i].now == t
  }

  /** The servers of `todo` have been resumed until they are out of their elections; no other has changed. */
  ghost predicate Cleared(h: Group, g: Group, todo: seq<Uuid>) {
    && h.ids == g.ids && h.servers.Keys == g.servers.Keys
    && (forall s :: s in todo && s in h.servers ==> h.servers[s].election == Idle)
    && (forall s :: s in h.servers && s !in todo ==> h.servers[s] == g.servers[s])
  }

  /** One server resumed until it is out of its election. */
  lemma ResumeOne(g: Group, s: Uuid, t: int, top: Uuid) returns (es: seq<Event>)
    requires Good(g, top) && s in g.servers
    requires g.servers[s].co == CoRunning ==> g.servers[s].timer.start <= t - ELECTION_TIMEOUT
    ensures Runs(g, es) && Unprompted(es) && Good(RunOf(g, es), top) && AllResume(es, [s], t)
    ensures Cleared(RunOf(g, es), g, [s])
    ensures g.servers[s].co == CoRunning ==> Resume(s, t) in es
  {
    assert CoreLive(g.servers[s]);
    if g.servers[s].election == Running {
      es := ResumeToClaim(g, s, t, top);
      assert es[0] == Resume(s, t);
    } else if g.servers[s].co == CoRunning {
      RunOfOne(g, Resume(s, t));
      StepKeepsGood(g, Resume(s, t), top);
      es := [Resume(s, t)];
    } else {
      es := [];
    }
  }

  lemma {:induction false} ResumeEach(g: Group, todo: seq<Uuid>, t: int, top: Uuid) returns (es: seq<Event>)
    requires Good(g, top) && (forall s :: s in todo ==> s in g.servers) && StartedBy(g, t - ELECTION_TIMEOUT)
    ensures Runs(g, es) && Unprompted(es) && Good(RunOf(g, es), top) && AllResume(es, todo, t)
    ensures Cleared(RunOf(g, es), g, todo)
    ensures forall s :: s in todo && g.servers[s].co == CoRunning ==> Resume(s, t) in es
    decreases |todo|
  {
    if todo == [] {
      es := [];
    } else {
      var init, last := todo[..|todo| - 1], todo[|todo| - 1];
      assert todo == init + [last];
      es := ResumeEach(g, init, t, top);
      if last !in init {
        var h := RunOf(g, es);
        var rest := ResumeOne(h, last, t, top);
        RunsConcat(g, es, rest);
        ClearedThen(RunOf(h, rest), h, g, init, last);
        ResumedMore(es, rest, init, last, t);
        es := es + rest;
      }
    }
  }

  lemma ClearedThen(k: Group, h: Group, g: Group, todo: seq<Uuid>, s: Uuid)
    requires Cleared(h, g, todo) && Cleared(k, h, [s])
    ensures Cleared(k, g, todo + [s])
  {
  }

  lemma ResumedMore(es: seq<Event>, fs: seq<Event>, todo: seq<Uuid>, s: Uuid, t: int)
    requires AllResume(es, todo, t) && AllResume(fs, [s], t)
    ensures AllResume(es + fs, todo + [s], t)
  {
  }

  ghost predicate AllIdle(g: Group) {
    forall s :: s in g.servers ==> g.servers[s].election == Idle
  }

  /** All others first, then b, whose claim is the last message. */
  lemma EveryoneClaims(g: Group, b: Uuid, t: int, top: Uuid) returns (es: seq<Event>)
    requires Good(g, top) && InElection(g, b) && StartedBy(g, t - ELECTION_TIMEOUT)
    ensures Runs(g, es) && Good(RunOf(g, es), top) && AllResume(es, g.ids, t)
    ensures RunOf(g, es).ids == g.ids && AllIdle(RunOf(g, es)) && ClaimedLast(RunOf(g, es), b)
    ensures forall s :: s in g.servers && g.servers[s].co == CoRunning ==> Resume(s, t) in es
  {
    var others := Others(g.ids, b);
    OthersMembers(g.ids, b);
    var first := ResumeEach(g, others, t, top);
    var rest := LastClaim(RunOf(g, first), b, t, top);
    RunsConcat(g, first, rest);
    es := first + rest;
    EveryoneResumed(g, first, rest, b, t);
  }

  lemma EveryoneResumed(g: Group, first: seq<Event>, rest: seq<Event>, b: Uuid, t: int)
    requires WellFormed(g) && b in g.ids && AllResume(first, Others(g.ids, b), t) && AllResume(rest, [b], t)
    requires forall s :: s in Others(g.ids, b) && s in g.servers && g.servers[s].co == CoRunning ==> Resume(s, t) in first
    requires Resume(b, t) in rest
    ensures AllResume(first + rest, g.ids, t)
    ensures forall s :: s in g.servers && g.servers[s].co == CoRunning ==> Resume(s, t) in first + rest
  {
    OthersMembers(g.ids, b);
    ResumedMore(first, rest, Others(g.ids, b), b, t);
    assert forall i :: 0 <= i < |first + rest| ==> (first + rest)[i].s in Others(g.ids, b) + [b];
  }

  lemma LastClaim(h: Group, b: Uuid, t: int, top: Uuid) returns (es: seq<Event>)
    requires Good(h, top) && InElection(h, b) && h.servers[b].timer.start <= t - ELECTION_TIMEOUT
    requires forall s :: s in h.servers && s != b ==> h.servers[s].election == Idle
    ensures Runs(h, es) && Good(RunOf(h, es), top) && AllResume(es, [b], t) && Resume(b, t) in es
    ensures RunOf(h, es).ids == h.ids && AllIdle(RunOf(h, es)) && ClaimedLast(RunOf(h, es), b)
  {
    es := ResumeToClaim(h, b, t, top);
    assert es[0] == Resume(b, t);
  }

  /** The messages of b's claim are behind all others. */
  ghost predicate ClaimedLast(g: Group, b: Uuid) {
    exists earlier :: g.flight == earlier + CoordinatorMsgs(b, Others(g.ids, b))
  }

  // ----- then all messages are handled, and b is asked after the last claim it hears

  ghost predicate Tells(m: Msg, b: Uuid) {
    m.Coordinator? && m.to == b
  }

  /** b's claim is on its way to a, and no claim will reach b that is not before it. */
  ghost predicate ClaimAhead(ms: seq<Msg>, a: Uuid, b: Uuid, k: nat) {
    && k < |ms| && ms[k] == Coordinator(b, a)
    && forall j :: k < j < |ms| ==> !Tells(ms[j], b)
  }

  /** b is in an election or about to be, and no claim is on its way to it. */
  ghost predicate Undisturbed(g: Group, b: Uuid) {
    && (forall m :: m in g.flight ==> !Tells(m, b))
    && (Election(b) in g.flight || InElection(g, b))
  }

  ghost predicate Pending(g: Group, a: Uuid, b: Uuid) {
    Undisturbed(g, b) || exists k: nat :: ClaimAhead(g.flight, a, b, k)
  }

  lemma AsksBelow(ids: seq<Uuid>, a: Uuid, b: Uuid)
    requires Crossed(ids, a, b)
    ensures Election(b) in ElectionMsgs(Targets(Others(ids, a), a))
  {
    var asked := Targets(Others(ids, a), a);
    HigherIdIsTotalOrder(a, b, a);
    OthersMembers(ids, a);
    TargetsWithin(Others(ids, a), a);
    ElectionMsgsAt(asked);
    var k :| 0 <= k < |asked| && asked[k] == b;
    assert ElectionMsgs(asked)[k] == Election(b);
  }

  lemma ClaimIsPending(g: Group, a: Uuid, b: Uuid)
    requires Crossed(g.ids, a, b) && ClaimedLast(g, b)
    ensures Pending(g, a, b)
  {
    var others := Others(g.ids, b);
    var earlier :| g.flight == earlier + CoordinatorMsgs(b, others);
    HigherIdIsTotalOrder(a, b, a);
    OthersMembers(g.ids, b);
    CoordinatorMsgsAt(b, others);
    var i :| 0 <= i < |others| && others[i] == a;
    assert CoordinatorMsgs(b, others)[i] == Coordinator(b, a);
    forall j | |earlier| + i < j < |g.flight|
      ensures !Tells(g.flight[j], b)
    {
      assert g.flight[j] == CoordinatorMsgs(b, others)[j - |earlier|];
      assert others[j - |earlier|] in others;
    }
    assert ClaimAhead(g.flight, a, b, |earlier| + i);
  }

  /** A delivery writes nothing but ELECTION messages behind the others. */
  lemma FirstHandled(g: Group, t: int)
    requires WellFormed(g) && g.flight != [] && Enabled(g, Deliver(0, t))
    ensures Step(g, Deliver(0, t)).flight == g.flight[1..] + Written(g, Deliver(0, t))
    ensures forall m :: m in Written(g, Deliver(0, t)) ==> m.Election?
  {
    OnlyElections(g, Deliver(0, t));
    assert Without(g.flight, 0) == g.flight[1..];
  }

  lemma UndisturbedStep(g: Group, b: Uuid, t: int)
    requires Ranked(g) && b in g.ids && g.flight != [] && Enabled(g, Deliver(0, t)) && Undisturbed(g, b)
    ensures Undisturbed(Step(g, Deliver(0, t)), b)
  {
    var e := Deliver(0, t);
    FirstHandled(g, t);
    assert g.flight[0] in g.flight;
    if g.flight[0] == Election(b) {
      AskedIsInElection(g, b, t);
    } else if Election(b) in g.flight {
      StillInFlight(g, e, Election(b));
    } else {
      StaysInElection(g, b, t);
    }
  }

  lemma AskedIsInElection(g: Group, b: Uuid, t: int)
    requires Ranked(g) && g.flight != [] && Enabled(g, Deliver(0, t)) && g.flight[0] == Election(b)
    ensures InElection(Step(g, Deliver(0, t)), b)
  {
  }

  lemma StaysInElection(g: Group, b: Uuid, t: int)
    requires Ranked(g) && g.flight != [] && Enabled(g, Deliver(0, t)) && InElection(g, b) && !Tells(g.flight[0], b)
    ensures InElection(Step(g, Deliver(0, t)), b)
  {
  }

  lemma ClaimReachesA(g: Group, a: Uuid, b: Uuid, t: int)
    requires Ranked(g) && Crossed(g.ids, a, b) && Enabled(g, Deliver(0, t)) && ClaimAhead(g.flight, a, b, 0)
    ensures Undisturbed(Step(g, Deliver(0, t)), b)
  {
    var e := Deliver(0, t);
    FirstHandled(g, t);
    HigherIdIsTotalOrder(a, b, a);
    AsksBelow(g.ids, a, b);
    WrittenInFlight(g, e, Election(b));
  }

  lemma ClaimComesNearer(ms: seq<Msg>, more: seq<Msg>, a: Uuid, b: Uuid, k: nat)
    requires k > 0 && ClaimAhead(ms, a, b, k) && forall m :: m in more ==> m.Election?
    ensures ClaimAhead(ms[1..] + more, a, b, k - 1)
  {
    forall j | k - 1 < j < |ms[1..] + more|
      ensures !Tells((ms[1..] + more)[j], b)
    {
      if j < |ms| - 1 {
        assert (ms[1..] + more)[j] == ms[j + 1];
      } else {
        assert (ms[1..] + more)[j] in more;
      }
    }
  }

  lemma PendingStep(g: Group, a: Uuid, b: Uuid, t: int)
    requires Ranked(g) && Crossed(g.ids, a, b) && g.flight != [] && Enabled(g, Deliver(0, t)) && Pending(g, a, b)
    ensures Pending(Step(g, Deliver(0, t)), a, b)
  {
    if Undisturbed(g, b) {
      UndisturbedStep(g, b, t);
    } else {
      var k: nat :| ClaimAhead(g.flight, a, b, k);
      if k == 0 {
        ClaimReachesA(g, a, b, t);
      } else {
        FirstHandled(g, t);
        ClaimComesNearer(g.flight, Written(g, Deliver(0, t)), a, b, k);
      }
    }
  }

  lemma {:induction false} PendingKept(g: Group, a: Uuid, b: Uuid, es: seq<Event>, t: int)
    requires Ranked(g) && Crossed(g.ids, a, b) && Runs(g, es) && AllFirst(es, t) && Pending(g, a, b)
    ensures Pending(RunOf(g, es), a, b)
    decreases |es|
  {
    if es != [] {
      PendingStep(g, a, b, t);
      StepKeepsRanked(g, es[0]);
      PendingKept(Step(g, es[0]), a, b, es[1..], t);
    }
  }

  // ----- the round is strict and can be repeated

  lemma {:induction false} InOrderWhole(g: Group, es: seq<Event>)
    requires Runs(g, es) && forall i :: 0 <= i < |es| && es[i].Deliver? ==> es[i].i == 0
    ensures RunsInOrder(g, es)
    decreases |es|
  {
    if es != [] { InOrderWhole(Step(g, es[0]), es[1..]); }
  }

  lemma {:induction false} LeavesMidway(g: Group, es: seq<Event>, all: seq<Event>, s: Uuid)
    requires Runs(g, es) && Runs(g, all) && es <= all && !InElection(RunOf(g, es), s)
    ensures !InElectionThroughout(g, all, s)
    decreases |es|
  {
    if es != [] { LeavesMidway(Step(g, es[0]), es[1..], all[1..], s); }
  }

  lemma RoundIsStrict(g: Group, es: seq<Event>, fs: seq<Event>, t: int)
    requires Runs(g, es) && AllResume(es, g.ids, t)
    requires Runs(g, es + fs) && AllFirst(fs, t) && g.flight == [] && RunOf(g, es + fs).flight == []
    requires forall s :: s in g.servers ==> !InElection(RunOf(g, es), s)
    requires forall s :: s in g.servers && g.servers[s].co == CoRunning ==> Resume(s, t) in es
    ensures StrictRound(g, es + fs, t)
  {
    var all := es + fs;
    RoundEvents(es, fs, g.ids, t);
    InOrderWhole(g, all);
    assert es <= all;
    forall s | s in g.servers
      ensures !InElectionThroughout(g, all, s)
    {
      LeavesMidway(g, es, all, s);
    }
    assert forall e :: e in es ==> e in all;
  }

  lemma RoundEvents(es: seq<Event>, fs: seq<Event>, ids: seq<Uuid>, t: int)
    requires AllResume(es, ids, t) && AllFirst(fs, t)
    ensures Unprompted(es + fs) && AllAt(es + fs, t)
    ensures forall i :: 0 <= i < |es + fs| && (es + fs)[i].Deliver? ==> (es + fs)[i].i == 0
  {
  }

  /** What holds between two rounds. */
  ghost predicate Contest(g: Group, a: Uuid, b: Uuid, t: int, top: Uuid) {
    Good(g, top) && Crossed(g.ids, a, b) && g.flight == [] && InElection(g, b) && StartedBy(g, t)
  }

  lemma ContestRound(g: Group, a: Uuid, b: Uuid, t: int, top: Uuid) returns (es: seq<Event>)
    requires Contest(g, a, b, t - ELECTION_TIMEOUT, top)
    ensures StrictRound(g, es, t) && Contest(RunOf(g, es), a, b, t, top)
  {
    var claims := EveryoneClaims(g, b, t, top);
    var h := RunOf(g, claims);
    ClaimIsPending(h, a, b);
    var rest := Drain(h, t, top);
    PendingKept(h, a, b, rest, t);
    RunsConcat(g, claims, rest);
    es := claims + rest;
    RoundIsStrict(g, claims, rest, t);
    RunKeepsStarted(g, es, t);
  }

  lemma {:induction false} ContestGoesOn(g: Group, a: Uuid, b: Uuid, t: int, n: nat, top: Uuid) returns (rounds: seq<seq<Event>>)
    requires Contest(g, a, b, t - ELECTION_TIMEOUT, top)
    ensures |rounds| == n && StrictRounds(g, rounds, t)
    ensures Runs(g, Flat(rounds)) && !Quiescent(RunOf(g, Flat(rounds)))
    decreases n
  {
    if n == 0 {
      rounds := [];
    } else {
      var es := ContestRound(g, a, b, t, top);
      var rest := ContestGoesOn(RunOf(g, es), a, b, t + 1, n - 1, top);
      rounds := [es] + rest;
      assert rounds[1..] == rest;
      RunsConcat(g, es, Flat(rest));
    }
  }

  /** The contest is reached: b starts an election at time 0 and all messages are handled. */
  lemma ReachContest(ids: seq<Uuid>, a: Uuid, b: Uuid) returns (es: seq<Event>, top: Uuid)
    requires Distinct(ids) && Crossed(ids, a, b)
    ensures Runs(InitialGroup(ids), es) && AllAt(es, 0) && Contest(RunOf(InitialGroup(ids), es), a, b, 0, top)
  {
    var g, e := InitialGroup(ids), Trigger(b, 0);
    InitialIsRanked(ids);
    top := TopAmong(ids);
    assert Good(g, top);
    BStarts(g, b);
    StepKeepsGood(g, e, top);
    StepKeepsStarted(g, e, 0);
    var rest := SettleDown(Step(g, e), a, b, top);
    Prefixed(g, e, rest);
    es := [e] + rest;
  }

  lemma SettleDown(h: Group, a: Uuid, b: Uuid, top: Uuid) returns (es: seq<Event>)
    requires Good(h, top) && Crossed(h.ids, a, b) && Undisturbed(h, b) && StartedBy(h, 0)
    ensures Runs(h, es) && AllAt(es, 0) && Contest(RunOf(h, es), a, b, 0, top)
  {
    es := Drain(h, 0, top);
    PendingKept(h, a, b, es, 0);
    RunKeepsStarted(h, es, 0);
  }

  lemma BStarts(g: Group, b: Uuid)
    requires WellFormed(g) && g.flight == [] && b in g.servers && g.servers[b] == Initial(b)
    ensures Enabled(g, Trigger(b, 0)) && Undisturbed(Step(g, Trigger(b, 0)), b)
  {
    OthersMembers(g.ids, b);
    ElectionMsgsAt(Targets(Others(g.ids, b), b));
  }

  // ----- fairness helps exactly when the orders agree

  ghost predicate RestsStrictly(g: Group, from: int, bound: nat) {
    forall rounds, t :: from <= t && StrictRounds(g, rounds, t) && |rounds| > bound
      ==> Runs(g, Flat(rounds)) && Quiescent(RunOf(g, Flat(rounds)))
  }

  /** From every state that is reached with clocks that do not go back, enough strict rounds lead to rest. */
  ghost predicate StrictnessSuffices(ids: seq<Uuid>) {
    forall es, from :: Runs(InitialGroup(ids), es) && Clocked(es) && ReadUpTo(es, from)
      ==> exists bound: nat :: RestsStrictly(RunOf(InitialGroup(ids), es), from, bound)
  }

  lemma FairThenStrict(ids: seq<Uuid>)
    requires FairnessSuffices(ids)
    ensures StrictnessSuffices(ids)
  {
    forall es, from | Runs(InitialGroup(ids), es) && Clocked(es) && ReadUpTo(es, from)
      ensures exists bound: nat :: RestsStrictly(RunOf(InitialGroup(ids), es), from, bound)
    {
      var g := RunOf(InitialGroup(ids), es);
      var bound: nat :| RestsWithin(g, bound);
      forall rounds, t | from <= t && StrictRounds(g, rounds, t) && |rounds| > bound
        ensures Runs(g, Flat(rounds)) && Quiescent(RunOf(g, Flat(rounds)))
      {
        StrictIsFair(g, rounds, t);
      }
      assert RestsStrictly(g, from, bound);
    }
  }

  lemma ContestsGoOnForEver(ids: seq<Uuid>, a: Uuid, b: Uuid)
    requires Distinct(ids) && Crossed(ids, a, b)
    ensures !StrictnessSuffices(ids)
  {
    var es, top := ReachContest(ids, a, b);
    var g := RunOf(InitialGroup(ids), es);
    forall bound: nat
      ensures !RestsStrictly(g, 0, bound)
    {
      var rounds := ContestGoesOn(g, a, b, 1, bound + 1, top);
    }
    assert Clocked(es) && ReadUpTo(es, 0);
  }

  /** Fairness leads every group to rest if and only if both orders rank its members alike: in one direction fair
      rounds are enough, in the other strict ones are not. */
  lemma FairnessSufficesIff(ids: seq<Uuid>)
    requires Distinct(ids)
    ensures FairnessSuffices(ids) <==> Compatible(ids)
    ensures StrictnessSuffices(ids) <==> Compatible(ids)
  {
    if Compatible(ids) {
      CompatibleRest(ids);
      FairThenStrict(ids);
    } else {
      var a, b := CrossedPair(ids);
      ContestsGoOnForEver(ids, a, b);
      if FairnessSuffices(ids) { FairThenStrict(ids); }
    }
  }

  /** Two servers started in successive milliseconds can be such a group. */
  lemma GeneratedContest(m: nat)
    requires m + 1 < TWO_48 && m % 256 < 255
    ensures !StrictnessSuffices([Generated(m, 2), Generated(m + 1, 1)])
  {
    GeneratedPairLoops(m);
    var a, b := Generated(m, 2), Generated(m + 1, 1);
    assert [a, b][..1] == [a] && [a][..0] == [];
    HigherIdIsTotalOrder(a, b, a);
    ContestsGoOnForEver([a, b], a, b);
  }
}
