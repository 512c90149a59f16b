/** Whether the members agree on their coordinator when an election has ended. */
module ElectionFollowers {
  import opened Uuids
  import opened ElectionServer
  import opened ElectionGroup
  import opened ElectionAgreement
  import opened Wrappers

  /** s accepts this message as its coordinator. */
  predicate Accepts(s: Uuid, m: Msg) {
    m.Coordinator? && m.to == s && HigherId(m.from, s)
  }

  /** The coordinator of s after it handles all of ms in order, starting with c. */
  function Final(ms: seq<Msg>, s: Uuid, c: Uuid): Uuid
    decreases |ms|
  {
    if ms == [] then c
    else if Accepts(s, ms[|ms| - 1]) then ms[|ms| - 1].from
    else Final(ms[..|ms| - 1], s, c)
  }

  /** Each server handles the messages sent to it in the order in which they were sent. */
  ghost predicate InOrder(g: Group, e: Event) {
    e.Deliver? && e.i < |g.flight| ==> forall j :: 0 <= j < e.i ==> g.flight[j].to != g.flight[e.i].to
  }

  ghost predicate RunsInOrder(g: Group, es: seq<Event>)
    ensures RunsInOrder(g, es) ==> Runs(g, es)
    decreases |es|
  {
    es == [] || (Enabled(g, es[0]) && InOrder(g, es[0]) && RunsInOrder(Step(g, es[0]), es[1..]))
  }

  // ----- the final coordinator across concatenation and removal

  lemma {:induction false} FinalConcat(a: seq<Msg>, b: seq<Msg>, s: Uuid, c: Uuid)
    ensures Final(a + b, s, c) == Final(b, s, Final(a, s, c))
    decreases |b|
  {
    if b == [] {
      assert a + b == a;
    } else {
      assert (a + b)[..|a + b| - 1] == a + b[..|b| - 1];
      FinalConcat(a, b[..|b| - 1], s, c);
    }
  }

  lemma {:induction false} FinalUnaffected(ms: seq<Msg>, s: Uuid, c: Uuid)
    requires forall m :: m in ms ==> !Accepts(s, m)
    ensures Final(ms, s, c) == c
    decreases |ms|
  {
    if ms != [] { FinalUnaffected(ms[..|ms| - 1], s, c); }
  }

  lemma {:induction false} FinalAmong(ms: seq<Msg>, s: Uuid, c: Uuid, d: Uuid)
    ensures (exists m :: m in ms && Accepts(s, m)) ==> Final(ms, s, c) == Final(ms, s, d)
    decreases |ms|
  {
    if ms != [] && !Accepts(s, ms[|ms| - 1]) {
      FinalAmong(ms[..|ms| - 1], s, c, d);
      assert forall m :: m in ms && Accepts(s, m) ==> m in ms[..|ms| - 1];
    }
  }

  /** Taking out a message that s does not accept changes nothing for s. */
  lemma FinalWithoutOther(ms: seq<Msg>, i: nat, s: Uuid, c: Uuid)
    requires i < |ms| && !Accepts(s, ms[i])
    ensures Final(Without(ms, i), s, c) == Final(ms, s, c)
  {
    FinalConcat(ms[..i], ms[i + 1..], s, c);
    FinalConcat(ms[..i + 1], ms[i + 1..], s, c);
    assert ms == ms[..i + 1] + ms[i + 1..];
    assert ms[..i + 1][..i] == ms[..i];
  }

  /** Handling the first message to s moves it from the list into the coordinator. */
  lemma FinalOfFirst(ms: seq<Msg>, i: nat, s: Uuid, c: Uuid)
    requires i < |ms| && Accepts(s, ms[i]) && forall j :: 0 <= j < i ==> ms[j].to != s
    ensures Final(Without(ms, i), s, ms[i].from) == Final(ms, s, c)
  {
    FinalConcat(ms[..i], ms[i + 1..], s, ms[i].from);
    FinalConcat(ms[..i + 1], ms[i + 1..], s, c);
    assert ms == ms[..i + 1] + ms[i + 1..];
    FinalUnaffected(ms[..i], s, ms[i].from);
  }

  lemma {:induction false} FinalOfClaim(from: Uuid, us: seq<Uuid>, s: Uuid, c: Uuid)
    requires s in us && HigherId(from, s)
    ensures Final(CoordinatorMsgs(from, us), s, c) == from
    decreases |us|
  {
    var ms, init := CoordinatorMsgs(from, us), us[..|us| - 1];
    CoordinatorMsgsAt(from, us);
    CoordinatorMsgsAt(from, init);
    if us[|us| - 1] != s {
      FinalOfClaim(from, init, s, c);
      assert ms[..|ms| - 1] == CoordinatorMsgs(from, init);
    }
  }

  // ----- the invariant

  /** Unless the top is still to act, s ends up following it. */
  ghost predicate Bound(g: Group, top: Uuid, s: Uuid)
    requires top in g.servers && s in g.servers
  {
    Contacted(g, top) || Final(g.flight, s, g.servers[s].coordinator) == top
  }

  ghost predicate AllBound(g: Group, top: Uuid)
    requires top in g.servers
  {
    forall s {:trigger Bound(g, top, s)} :: s in g.servers && s != top ==> Bound(g, top, s)
  }

  lemma OtherStepsBound(g: Group, e: Event, top: Uuid, s: Uuid)
    requires Ranked(g) && IsTop(g, top) && Enabled(g, e) && Actor(g, e) != s
    requires s in g.servers && s != top && Final(g.flight, s, g.servers[s].coordinator) == top
    ensures Bound(Step(g, e), top, s)
  {
    var c := g.servers[s].coordinator;
    if e.Resume? && Claims(g.servers[e.s], e.now) {
      if e.s == top { ClaimBinds(g, e, top, s); } else { ClaimTells(g, e, top); }
    } else {
      OtherRemaining(g, e, s);
      FinalConcat(Remaining(g, e), Written(g, e), s, c);
      OnlyElections(g, e);
      FinalUnaffected(Written(g, e), s, top);
      assert Step(g, e).servers[s] == g.servers[s];
    }
  }

  /** Handling somebody else's message leaves what s still has to handle. */
  lemma OtherRemaining(g: Group, e: Event, s: Uuid)
    requires Enabled(g, e) && Actor(g, e) != s && s in g.servers
    ensures var c := g.servers[s].coordinator; Final(Remaining(g, e), s, c) == Final(g.flight, s, c)
  {
    if e.Deliver? { FinalWithoutOther(g.flight, e.i, s, g.servers[s].coordinator); }
  }

  lemma OwnStepBound(g: Group, e: Event, top: Uuid, s: Uuid)
    requires Ranked(g) && IsTop(g, top) && Enabled(g, e) && InOrder(g, e) && Actor(g, e) == s
    requires s in g.servers && s != top && Final(g.flight, s, g.servers[s].coordinator) == top
    ensures Bound(Step(g, e), top, s)
  {
    if e.Resume? && Claims(g.servers[s], e.now) {
      ClaimTells(g, e, top);
    } else {
      var d := Changed(g, e).coordinator;
      OwnRemaining(g, e, top, s);
      FinalConcat(Remaining(g, e), Written(g, e), s, d);
      OnlyElections(g, e);
      FinalUnaffected(Written(g, e), s, Final(Remaining(g, e), s, d));
      assert Step(g, e).servers[s] == Changed(g, e);
    }
  }

  /** What s has handled, together with what it still has to handle, makes it follow the top. */
  lemma OwnRemaining(g: Group, e: Event, top: Uuid, s: Uuid)
    requires Ranked(g) && IsTop(g, top) && Enabled(g, e) && InOrder(g, e) && Actor(g, e) == s
    requires s in g.servers && s != top && Final(g.flight, s, g.servers[s].coordinator) == top
    requires e.Resume? ==> !Claims(g.servers[s], e.now)
    ensures Final(Remaining(g, e), s, Changed(g, e).coordinator) == top
  {
    match e
    case Deliver(_, _) => OwnDelivered(g, e, s);
    case Introduce(_, _) => OwnIntroduced(g, e, top, s);
    case Resume(_, _) =>
    case Trigger(_, _) =>
  }

  lemma OwnDelivered(g: Group, e: Event, s: Uuid)
    requires WellFormed(g) && Enabled(g, e) && InOrder(g, e) && e.Deliver? && Actor(g, e) == s
    ensures Final(Remaining(g, e), s, Changed(g, e).coordinator) == Final(g.flight, s, g.servers[s].coordinator)
  {
    var c := g.servers[s].coordinator;
    if Accepts(s, g.flight[e.i]) {
      FinalOfFirst(g.flight, e.i, s, c);
    } else {
      FinalWithoutOther(g.flight, e.i, s, c);
    }
  }

  lemma OwnIntroduced(g: Group, e: Event, top: Uuid, s: Uuid)
    requires Ranked(g) && IsTop(g, top) && Enabled(g, e) && e.Introduce? && Actor(g, e) == s
    requires Final(g.flight, s, g.servers[s].coordinator) == top
    ensures Final(g.flight, s, Changed(g, e).coordinator) == top
  {
    var c := g.servers[s].coordinator;
    if exists m :: m in g.flight && Accepts(s, m) {
      FinalAmong(g.flight, s, c, Changed(g, e).coordinator);
    } else {
      FinalUnaffected(g.flight, s, c);
      NobodyAboveTop(g, top, e.u);
    }
  }

  lemma TopStepBound(g: Group, e: Event, top: Uuid, s: Uuid)
    requires Ranked(g) && IsTop(g, top) && Enabled(g, e) && Actor(g, e) == top
    requires s in g.servers && s != top && Contacted(g, top)
    ensures Bound(Step(g, e), top, s)
  {
    if e.Resume? && Claims(g.servers[top], e.now) {
      ClaimBinds(g, e, top, s);
    } else {
      TopStaysContacted(g, e, top);
    }
  }

  lemma ClaimBinds(g: Group, e: Event, top: Uuid, s: Uuid)
    requires Ranked(g) && IsTop(g, top) && Enabled(g, e) && e.Resume? && e.s == top && Claims(g.servers[top], e.now)
    requires s in g.servers && s != top
    ensures Bound(Step(g, e), top, s)
  {
    var c := g.servers[s].coordinator;
    FinalConcat(g.flight, Written(g, e), s, c);
    OthersMembers(g.ids, top);
    FinalOfClaim(top, Others(g.ids, top), s, Final(g.flight, s, c));
  }

  lemma BoundKept(g: Group, e: Event, top: Uuid, s: Uuid)
    requires Ranked(g) && IsTop(g, top) && Enabled(g, e) && InOrder(g, e)
    requires s in g.servers && s != top && Bound(g, top, s)
    ensures s in Step(g, e).servers && Bound(Step(g, e), top, s)
  {
    if Contacted(g, top) {
      if Actor(g, e) == top { TopStepBound(g, e, top, s); } else { ContactKept(g, e, top); }
    } else if Actor(g, e) == s {
      OwnStepBound(g, e, top, s);
    } else {
      OtherStepsBound(g, e, top, s);
    }
  }

  lemma CampaignBinds(g: Group, e: Event, top: Uuid)
    requires Ranked(g) && IsTop(g, top) && Enabled(g, e) && Campaigning(g)
    ensures top in Step(g, e).servers
    ensures Campaigning(Step(g, e)) || AllBound(Step(g, e), top)
  {
    if e.Resume? && Claims(g.servers[e.s], e.now) {
      forall s | s in g.servers && s != top
        ensures Bound(Step(g, e), top, s)
      {
        if e.s == top { ClaimBinds(g, e, top, s); } else { ClaimTells(g, e, top); }
      }
    } else {
      CampaignGoesOn(g, e);
    }
  }

  ghost predicate Binding(g: Group, top: Uuid) {
    top in g.servers && (Campaigning(g) || AllBound(g, top))
  }

  lemma BindingStep(g: Group, e: Event, top: Uuid)
    requires Ranked(g) && IsTop(g, top) && Binding(g, top) && Enabled(g, e) && InOrder(g, e)
    ensures Ranked(Step(g, e)) && IsTop(Step(g, e), top) && Binding(Step(g, e), top)
  {
    StepKeepsRanked(g, e);
    if Campaigning(g) {
      CampaignBinds(g, e, top);
    } else {
      forall s | s in g.servers && s != top
        ensures s in Step(g, e).servers && Bound(Step(g, e), top, s)
      {
        assert Bound(g, top, s);
        BoundKept(g, e, top, s);
      }
    }
  }

  lemma {:induction false} BindingReached(g: Group, es: seq<Event>, top: Uuid)
    requires Ranked(g) && IsTop(g, top) && RunsInOrder(g, es)
    requires Binding(g, top) || (Untouched(g) && Prompted(es))
    ensures Ranked(RunOf(g, es)) && IsTop(RunOf(g, es), top) && Binding(RunOf(g, es), top)
    decreases |es|
  {
    if es != [] {
      var h := Step(g, es[0]);
      StepKeepsRanked(g, es[0]);
      if Binding(g, top) {
        BindingStep(g, es[0], top);
      } else {
        UntouchedStep(g, es[0]);
        var i :| 0 <= i < |es| && es[i].Trigger?;
        if i > 0 { assert es[1..][i - 1] == es[i]; }
      }
      BindingReached(h, es[1..], top);
    }
  }

  ghost predicate AllFollow(g: Group, top: Uuid) {
    forall s :: s in g.servers ==> g.servers[s].coordinator == top
  }

  /** If each server handles its messages in the order they were sent, then after an election every
      server's coordinator is the top-ranked member. */
  lemma AgreementInOrder(ids: seq<Uuid>, es: seq<Event>, top: Uuid)
    requires Distinct(ids) && IsTop(InitialGroup(ids), top)
    requires RunsInOrder(InitialGroup(ids), es) && Prompted(es)
    requires Quiescent(RunOf(InitialGroup(ids), es))
    ensures AllFollow(RunOf(InitialGroup(ids), es), top)
  {
    InitialIsRanked(ids);
    BindingReached(InitialGroup(ids), es, top);
    var g := RunOf(InitialGroup(ids), es);
    LeadersAreMasters(g, top, top);
    forall s | s in g.servers && s != top
      ensures g.servers[s].coordinator == top
    {
      assert Bound(g, top, s);
    }
  }

  // ----- exactly when they agree

  /** The member that somebody else names to s: the sender of a COORDINATOR that s accepts, or the top-ranked
      member when it is introduced. */
  ghost function Heard(g: Group, e: Event, s: Uuid, top: Uuid): Option<Uuid>
    requires Enabled(g, e)
  {
    if Actor(g, e) != s then None
    else match e
      case Deliver(i, _) => if Accepts(s, g.flight[i]) then Some(g.flight[i].from) else None
      case Introduce(_, u) => if u == top then Some(top) else None
      case _ => None
  }

  /** The member s heard of last in a run, or c. */
  ghost function LastHeard(g: Group, es: seq<Event>, s: Uuid, top: Uuid, c: Uuid): Uuid
    requires Runs(g, es)
    decreases |es|
  {
    if es == [] then c
    else
      var heard := Heard(g, es[0], s, top);
      LastHeard(Step(g, es[0]), es[1..], s, top, if heard.Some? then heard.value else c)
  }

  /** The top is still to act, or to be heard by s, or s follows it exactly if it heard of it last. */
  ghost predicate Informed(g: Group, top: Uuid, s: Uuid, c: Uuid)
    requires top in g.servers && s in g.servers
  {
    Contacted(g, top) || Coordinator(top, s) in g.flight || (g.servers[s].coordinator == top <==> c == top)
  }

  lemma TopInforms(g: Group, e: Event, top: Uuid, s: Uuid, c: Uuid)
    requires Ranked(g) && IsTop(g, top) && Enabled(g, e) && Actor(g, e) == top
    requires s in g.servers && s != top && Informed(g, top, s, c)
    ensures Informed(Step(g, e), top, s, c)
  {
    if e.Resume? && Claims(g.servers[top], e.now) {
      ClaimTells(g, e, s);
    } else if Contacted(g, top) {
      TopStaysContacted(g, e, top);
    } else if Coordinator(top, s) in g.flight {
      StillInFlight(g, e, Coordinator(top, s));
    }
  }

  lemma OtherInforms(g: Group, e: Event, top: Uuid, s: Uuid, c: Uuid)
    requires Ranked(g) && IsTop(g, top) && Enabled(g, e) && Actor(g, e) !in {top, s}
    requires s in g.servers && s != top && Informed(g, top, s, c)
    ensures Informed(Step(g, e), top, s, c)
  {
    if Contacted(g, top) {
      ContactKept(g, e, top);
    } else if Coordinator(top, s) in g.flight {
      StillInFlight(g, e, Coordinator(top, s));
    }
  }

  lemma OwnInforms(g: Group, e: Event, top: Uuid, s: Uuid, c: Uuid)
    requires Ranked(g) && IsTop(g, top) && Enabled(g, e) && Actor(g, e) == s
    requires s in g.servers && s != top && Informed(g, top, s, c)
    ensures var heard := Heard(g, e, s, top);
      Informed(Step(g, e), top, s, if heard.Some? then heard.value else c)
  {
    if Contacted(g, top) {
      ContactKept(g, e, top);
    } else if e.Resume? && Claims(g.servers[s], e.now) {
      ClaimTells(g, e, top);
    } else if e.Deliver? && g.flight[e.i] == Coordinator(top, s) {
      assert HigherId(top, s);
    } else if Coordinator(top, s) in g.flight {
      StillInFlight(g, e, Coordinator(top, s));
    } else if e.Introduce? {
      NobodyAboveTop(g, top, e.u);
      HigherIdIsTotalOrder(top, g.servers[s].coordinator, s);
      assert CoreRanked(g.ids, g.servers[s]);
    }
  }

  lemma {:induction false} InformedThroughout(g: Group, es: seq<Event>, s: Uuid, top: Uuid, c: Uuid)
    requires Ranked(g) && IsTop(g, top) && Runs(g, es) && s in g.servers && s != top && Informed(g, top, s, c)
    ensures Ranked(RunOf(g, es)) && IsTop(RunOf(g, es), top) && s in RunOf(g, es).servers
    ensures Informed(RunOf(g, es), top, s, LastHeard(g, es, s, top, c))
    decreases |es|
  {
    if es != [] {
      var e, heard := es[0], Heard(g, es[0], s, top);
      StepKeepsRanked(g, e);
      if Actor(g, e) == s {
        OwnInforms(g, e, top, s, c);
      } else if Actor(g, e) == top {
        TopInforms(g, e, top, s, c);
      } else {
        OtherInforms(g, e, top, s, c);
      }
      InformedThroughout(Step(g, e), es[1..], s, top, if heard.Some? then heard.value else c);
    }
  }

  /** Each member but the top heard of the top last. */
  ghost predicate TopHeardLast(ids: seq<Uuid>, es: seq<Event>, top: Uuid)
    requires Runs(InitialGroup(ids), es)
  {
    forall s :: s in ids && s != top ==> LastHeard(InitialGroup(ids), es, s, top, s) == top
  }

  /** At rest all coordinators are the top-ranked member if and only if each of the others heard of the top
      last, by a COORDINATOR it accepted or an introduction. What a server claimed itself does not matter. */
  lemma AgreementIffHeardLast(ids: seq<Uuid>, es: seq<Event>, top: Uuid)
    requires Distinct(ids) && Runs(InitialGroup(ids), es)
    requires IsTop(InitialGroup(ids), top) && Quiescent(RunOf(InitialGroup(ids), es))
    ensures AllFollow(RunOf(InitialGroup(ids), es), top) <==> TopHeardLast(ids, es, top)
  {
    var g, h := InitialGroup(ids), RunOf(InitialGroup(ids), es);
    InitialIsRanked(ids);
    RunKeepsRanked(g, es);
    TopStays(g, es, top);
    LeadersAreMasters(h, top, top);
    forall s | s in ids && s != top
      ensures h.servers[s].coordinator == top <==> LastHeard(g, es, s, top, s) == top
    {
      InformedThroughout(g, es, s, top, s);
    }
  }

  lemma {:induction false} TopStays(g: Group, es: seq<Event>, top: Uuid)
    requires Ranked(g) && IsTop(g, top) && Runs(g, es)
    ensures IsTop(RunOf(g, es), top)
    decreases |es|
  {
    if es != [] {
      StepKeepsRanked(g, es[0]);
      TopStays(Step(g, es[0]), es[1..], top);
    }
  }
}
