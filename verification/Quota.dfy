/** The branch quota of compile-time evaluation. */
module Quotas {
  import opened Values

  const DEFAULT_COMPTIME_BRANCH_QUOTA: nat := 1000

  datatype Quota = Quota(limit: nat, spent: nat) {
    /** Every quota starts from the default, and limits only go up. */
    predicate Valid() {
      spent <= limit && DEFAULT_COMPTIME_BRANCH_QUOTA <= limit <= U32_MAX
    }

    /** How many more branches any run can ever take, whatever the limit is raised to. */
    function Left(): nat {
      if spent <= U32_MAX then U32_MAX - spent else 0
    }
  }

  const DEFAULT: Quota := Quota(DEFAULT_COMPTIME_BRANCH_QUOTA, 0)

  function Max(a: nat, b: nat): nat {
    if a < b then b else a
  }

  function Raised(q: Quota, limit: nat): Quota {
    q.(limit := Max(q.limit, limit))
  }

  function SpentOne(q: Quota): Option<Quota> {
    if q.spent == q.limit then None else Some(q.(spent := q.spent + 1))
  }

  function AfterReplay(q: Quota, branches: nat, maxSeen: nat): Option<Quota> {
    if q.spent + branches > U32_MAX || q.spent + branches > q.limit then None
    else Some(Raised(q.(spent := q.spent + branches), maxSeen))
  }

  /** What a call does to the quota, one thing at a time. */
  datatype QuotaEvent = Spend | Raise(limit: nat)

  /** A run of events, which fails when a branch is taken with nothing left. */
  function Replayed(q: Quota, events: seq<QuotaEvent>): Option<Quota>
    decreases |events|
  {
    if events == [] then Some(q)
    else
      match events[0]
      case Raise(l) => Replayed(Raised(q, l), events[1..])
      case Spend =>
        match SpentOne(q)
        case None => None
        case Some(q') => Replayed(q', events[1..])
  }

  /** The first part of the summary a call is cached with. */
  function Branches(events: seq<QuotaEvent>): nat {
    if events == [] then 0
    else (if events[0].Spend? then 1 else 0) + Branches(events[1..])
  }

  /** The second part: the largest limit asked for, starting from `seen`. */
  function MaxSeen(seen: nat, events: seq<QuotaEvent>): nat
    decreases |events|
  {
    if events == [] then seen
    else MaxSeen(if events[0].Raise? then Max(seen, events[0].limit) else seen, events[1..])
  }

  /** The quota after a run of events in which a branch that is not allowed is not counted. */
  function Carried(q: Quota, events: seq<QuotaEvent>): Quota
    decreases |events|
  {
    if events == [] then q
    else
      match events[0]
      case Raise(l) => Carried(Raised(q, l), events[1..])
      case Spend => Carried(if SpentOne(q).Some? then SpentOne(q).value else q, events[1..])
  }

  lemma {:induction false} ReplayedIsCarried(q: Quota, events: seq<QuotaEvent>)
    ensures Replayed(q, events).Some? ==> Replayed(q, events) == Some(Carried(q, events))
    decreases |events|
  {
    if events == [] {
    } else if events[0].Raise? {
      ReplayedIsCarried(Raised(q, events[0].limit), events[1..]);
    } else if SpentOne(q).Some? {
      ReplayedIsCarried(SpentOne(q).value, events[1..]);
    }
  }

  lemma {:induction false} RunsConcat(q: Quota, seen: nat, a: seq<QuotaEvent>, b: seq<QuotaEvent>)
    ensures Carried(q, a + b) == Carried(Carried(q, a), b)
    ensures MaxSeen(seen, a + b) == MaxSeen(MaxSeen(seen, a), b)
    ensures Branches(a + b) == Branches(a) + Branches(b)
    ensures Replayed(q, a + b) == match Replayed(q, a) case None => None case Some(q') => Replayed(q', b)
    decreases |a|
  {
    if a == [] {
      assert a + b == b;
    } else {
      assert (a + b)[0] == a[0] && (a + b)[1..] == a[1..] + b;
      match a[0]
      case Raise(l) => RunsConcat(Raised(q, l), Max(seen, l), a[1..], b);
      case Spend =>
        RunsConcat(q, seen, a[1..], b);
        if SpentOne(q).Some? { RunsConcat(SpentOne(q).value, seen, a[1..], b); }
    }
  }

  /** A call whose branches fit before any raise runs to its end, whatever the events are and in whatever order. */
  lemma {:induction false} EnoughRuns(q: Quota, events: seq<QuotaEvent>)
    requires q.spent + Branches(events) <= q.limit
    ensures Replayed(q, events) == Some(Quota(MaxSeen(q.limit, events), q.spent + Branches(events)))
    decreases |events|
  {
    if events == [] {
    } else {
      match events[0]
      case Raise(l) => EnoughRuns(Raised(q, l), events[1..]);
      case Spend => EnoughRuns(q.(spent := q.spent + 1), events[1..]);
    }
  }

  lemma {:induction false} MaxSeenIsMax(a: nat, b: nat, events: seq<QuotaEvent>)
    ensures MaxSeen(Max(a, b), events) == Max(a, MaxSeen(b, events))
    decreases |events|
  {
    if events == [] {
    } else if events[0].Raise? {
      MaxSeenIsMax(a, Max(b, events[0].limit), events[1..]);
      assert Max(Max(a, b), events[0].limit) == Max(a, Max(b, events[0].limit));
    } else {
      MaxSeenIsMax(a, b, events[1..]);
    }
  }

  /**
   * Whenever a cached call is replayed, running it again event by event would not have run out, and
   * would have ended in exactly the quota the replay leaves.
   */
  lemma {:induction false} ReplayRefinesReExecution(q: Quota, events: seq<QuotaEvent>)
    requires q.Valid()
    requires AfterReplay(q, Branches(events), MaxSeen(DEFAULT_COMPTIME_BRANCH_QUOTA, events)).Some?
    ensures Replayed(q, events) ==
            AfterReplay(q, Branches(events), MaxSeen(DEFAULT_COMPTIME_BRANCH_QUOTA, events))
  {
    EnoughRuns(q, events);
    MaxSeenIsMax(q.limit, DEFAULT_COMPTIME_BRANCH_QUOTA, events);
    assert Max(q.limit, DEFAULT_COMPTIME_BRANCH_QUOTA) == q.limit;
  }

  /** Some prefix of the events takes more branches than the largest limit asked for up to there. */
  ghost predicate RunsOut(q: Quota, events: seq<QuotaEvent>) {
    exists k | 0 <= k <= |events| :: q.spent + Branches(events[..k]) > MaxSeen(q.limit, events[..k])
  }

  /** The quota as the first event leaves it. */
  function AfterEvent(q: Quota, event: QuotaEvent): Quota {
    match event
    case Raise(l) => Raised(q, l)
    case Spend => q.(spent := q.spent + 1)
  }

  lemma {:induction false} PrefixSums(q: Quota, events: seq<QuotaEvent>, k: nat)
    requires events != [] && k < |events|
    ensures var q' := AfterEvent(q, events[0]);
            && q.spent + Branches(events[..k + 1]) == q'.spent + Branches(events[1..][..k])
            && MaxSeen(q.limit, events[..k + 1]) == MaxSeen(q'.limit, events[1..][..k])
  {
    assert events[..k + 1][0] == events[0] && events[..k + 1][1..] == events[1..][..k];
  }

  lemma {:induction false} RunsOutLater(q: Quota, events: seq<QuotaEvent>)
    requires q.spent <= q.limit && events != []
    ensures RunsOut(q, events) <==> RunsOut(AfterEvent(q, events[0]), events[1..])
  {
    hide Branches, MaxSeen;
    var q', rest := AfterEvent(q, events[0]), events[1..];
    if RunsOut(q, events) {
      var k :| 0 <= k <= |events| && q.spent + Branches(events[..k]) > MaxSeen(q.limit, events[..k]);
      assert k > 0 by { NothingYet(q, events); }
      PrefixSums(q, events, k - 1);
    }
    if RunsOut(q', rest) {
      var k :| 0 <= k <= |rest| && q'.spent + Branches(rest[..k]) > MaxSeen(q'.limit, rest[..k]);
      PrefixSums(q, events, k);
    }
  }

  lemma NothingYet(q: Quota, events: seq<QuotaEvent>)
    ensures Branches(events[..0]) == 0 && MaxSeen(q.limit, events[..0]) == q.limit
  {
  }

  /** Running a call event by event fails exactly if at some moment more is spent than was ever allowed. */
  lemma {:induction false} ReplayedFailsIff(q: Quota, events: seq<QuotaEvent>)
    requires q.spent <= q.limit
    ensures Replayed(q, events).None? <==> RunsOut(q, events)
    decreases |events|
  {
    NothingYet(q, events);
    if events == [] {
      assert events[..0] == events;
    } else {
      RunsOutLater(q, events);
      var q' := AfterEvent(q, events[0]);
      if q'.spent <= q'.limit {
        ReplayedFailsIff(q', events[1..]);
      } else {
        NothingYet(q', events[1..]);
      }
    }
  }

  /**
   * Replaying a cached call and running it again leave the same quota, or both fail, if and only if all its branches
   * fit the limit as it stands or running it again would fail as well.
   */
  lemma {:induction false} ReplayAgreesIff(q: Quota, events: seq<QuotaEvent>)
    requires q.Valid()
    ensures Replayed(q, events) == AfterReplay(q, Branches(events), MaxSeen(DEFAULT_COMPTIME_BRANCH_QUOTA, events))
            <==> (q.spent + Branches(events) <= q.limit || RunsOut(q, events))
  {
    ReplayedFailsIff(q, events);
    if q.spent + Branches(events) <= q.limit {
      ReplayRefinesReExecution(q, events);
    }
  }

  /** Where no event raises the limit they always agree. */
  lemma {:induction false} OnlySpendingAgrees(q: Quota, events: seq<QuotaEvent>)
    requires q.Valid() && forall i | 0 <= i < |events| :: events[i].Spend?
    ensures Replayed(q, events) == AfterReplay(q, Branches(events), MaxSeen(DEFAULT_COMPTIME_BRANCH_QUOTA, events))
  {
    ReplayAgreesIff(q, events);
    NoRaise(q.limit, events);
    assert events[..|events|] == events;
    if q.spent + Branches(events) > q.limit {
      assert RunsOut(q, events);
    }
  }

  lemma {:induction false} NoRaise(seen: nat, events: seq<QuotaEvent>)
    requires forall i | 0 <= i < |events| :: events[i].Spend?
    ensures MaxSeen(seen, events) == seen
    decreases |events|
  {
    if events != [] {
      NoRaise(seen, events[1..]);
    }
  }

  /** A refused replay can still be one the call itself would survive, because it raises the limit first. */
  lemma RefusedReplayCanStillRun()
    ensures var q, events := Quota(1000, 1000), [Raise(2000), Spend];
            AfterReplay(q, Branches(events), MaxSeen(1000, events)) == None
            && Replayed(q, events) == Some(Quota(2000, 1001))
  {
    var q, events := Quota(1000, 1000), [Raise(2000), Spend];
    assert events[1..] == [Spend] && [Spend][1..] == [];
    assert Branches(events) == 1;
    assert Replayed(Quota(2000, 1000), [Spend]) == Some(Quota(2000, 1001));
    assert Replayed(q, events) == Some(Quota(2000, 1001));
  }

  /** The quota as the evaluator holds it. */
  class ComptimeQuota {
    var limit: nat
    var spent: nat

    ghost function State(): Quota
      reads this
    {
      Quota(limit, spent)
    }

    constructor ()
      ensures State() == DEFAULT && State().Valid()
    {
      limit := DEFAULT_COMPTIME_BRANCH_QUOTA;
      spent := 0;
    }

    method RaiseLimit(limit: nat)
      requires State().Valid() && limit <= U32_MAX
      modifies this
      ensures State() == Raised(old(State()), limit) && State().Valid()
    {
      this.limit := if this.limit < limit then limit else this.limit;
    }

    method SpendBranch() returns (ok: bool)
      requires State().Valid()
      modifies this
      ensures State().Valid()
      ensures ok <==> SpentOne(old(State())).Some?
      ensures State() == if ok then SpentOne(old(State())).value else old(State())
    {
      if spent == limit {
        return false;
      }
      spent := spent + 1;
      return true;
    }

    method ReplayCachedCall(branches: nat, maxSeen: nat) returns (ok: bool)
      requires State().Valid() && branches <= U32_MAX && maxSeen <= U32_MAX
      modifies this
      ensures State().Valid()
      ensures ok <==> AfterReplay(old(State()), branches, maxSeen).Some?
      ensures State() == if ok then AfterReplay(old(State()), branches, maxSeen).value else old(State())
    {
      if spent + branches > U32_MAX || spent + branches > limit {
        return false;
      }
      spent := spent + branches;
      RaiseLimit(maxSeen);
      return true;
    }
  }
}
