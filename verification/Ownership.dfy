/**
 Who owns an EDHOC context, over whole runs of the server.

 The dispatcher records every act on a context as an event. A run is any sequence of enabled steps;
 each step is what one POST may do to the pending sessions and to the trace. The theorems below hold
 for every run, and the dispatcher is proved to move by exactly one enabled step per POST.
 */
module Ownership {
  import opened ConnectionIds
  import opened ManageContext
  import opened SessionDictionary

  datatype Event =
    | Allocated(context: EdhocContext)
    | SetUp(context: EdhocContext)
    | AnsweredMessage1(context: EdhocContext)
    | Stored(context: EdhocContext, cid: ConnectionId)
    | ProcessedMessage3(context: EdhocContext, accepted: bool)
    | Removed(context: EdhocContext, cid: ConnectionId)
    | Bound(context: EdhocContext, succeeded: bool)
    | Freed(context: EdhocContext)

  type Trace = seq<Event>

  ghost function Contexts(t: Trace): set<EdhocContext> {
    set i | 0 <= i < |t| :: t[i].context
  }

  // ---- The life of one context ----

  datatype Life =
    | Unborn | Blank | Ready | Answered
    | Pending(cid: ConnectionId)
    | Judged(cid: ConnectionId, accepted: bool)
    | Detached(cid: ConnectionId, accepted: bool)
    | Exported(cid: ConnectionId)
    | Gone
    | Wrong

  /** The only orders of acts a context may see; anything else is Wrong, and stays so. */
  ghost function Advance(life: Life, e: Event): Life {
    match e
    case Allocated(_) => if life.Unborn? then Blank else Wrong
    case SetUp(_) => if life.Blank? then Ready else Wrong
    case AnsweredMessage1(_) => if life.Ready? then Answered else Wrong
    case Stored(_, cid) => if life.Answered? then Pending(cid) else Wrong
    case ProcessedMessage3(_, accepted) => if life.Pending? then Judged(life.cid, accepted) else Wrong
    case Removed(_, cid) =>
      if life.Pending? && life.cid == cid then Detached(cid, false)
      else if life.Judged? && life.cid == cid then Detached(cid, life.accepted)
      else Wrong
    case Bound(_, _) => if life.Detached? && life.accepted then Exported(life.cid) else Wrong
    case Freed(_) =>
      if life.Ready? || life.Answered? || life.Detached? || life.Exported? then Gone else Wrong
  }

  ghost function Touch(life: Life, e: Event, c: EdhocContext): Life {
    if e.context == c then Advance(life, e) else life
  }

  ghost function LifeOf(t: Trace, c: EdhocContext): Life {
    if t == [] then Unborn else Touch(LifeOf(t[..|t| - 1], c), t[|t| - 1], c)
  }

  /** Contexts allocated and not yet freed, read off the trace alone. */
  ghost function LiveContexts(t: Trace): set<EdhocContext> {
    if t == [] then {}
    else
      var before := LiveContexts(t[..|t| - 1]);
      match t[|t| - 1]
      case Allocated(c) => before + {c}
      case Freed(c) => before - {c}
      case _ => before
  }

  ghost function Allocating(e: Event): nat {
    if e.Allocated? then 1 else 0
  }

  ghost function Freeing(e: Event): nat {
    if e.Freed? then 1 else 0
  }

  ghost function Allocations(t: Trace): nat {
    if t == [] then 0 else Allocations(t[..|t| - 1]) + Allocating(t[|t| - 1])
  }

  ghost function Frees(t: Trace): nat {
    if t == [] then 0 else Frees(t[..|t| - 1]) + Freeing(t[|t| - 1])
  }

  lemma AppendEvent(t: Trace, e: Event, c: EdhocContext)
    ensures LifeOf(t + [e], c) == Touch(LifeOf(t, c), e, c)
    ensures Allocations(t + [e]) == Allocations(t) + Allocating(e)
    ensures Frees(t + [e]) == Frees(t) + Freeing(e)
  {
    assert (t + [e])[..|t|] == t;
  }

  lemma ContextsOfBoth(t: Trace, u: Trace)
    ensures Contexts(t + u) == Contexts(t) + Contexts(u)
  {
    assert forall i :: 0 <= i < |t| ==> (t + u)[i] == t[i];
    assert forall i :: 0 <= i < |u| ==> (t + u)[|t| + i] == u[i];
  }

  lemma ContextsOfOneMore(t: Trace, e: Event)
    ensures Contexts(t + [e]) == Contexts(t) + {e.context}
  {
    ContextsOfBoth(t, [e]);
    assert [e][0].context in Contexts([e]);
  }

  lemma {:induction false} UnmentionedIsUnborn(t: Trace, c: EdhocContext)
    requires c !in Contexts(t)
    ensures LifeOf(t, c) == Unborn
  {
    if t != [] {
      assert t[|t| - 1].context in Contexts(t);
      assert Contexts(t[..|t| - 1]) <= Contexts(t);
      UnmentionedIsUnborn(t[..|t| - 1], c);
    }
  }

  // ---- What one POST may do ----

  datatype ServerState = ServerState(pending: SessionMap, trace: Trace)

  const INITIAL := ServerState(map[], [])

  datatype Step =
    /** No context was touched. */
    | Refused
    /** Message 1: a new context was allocated and freed again. */
    | Abandoned(context: EdhocContext, answered: bool)
    /** Message 1: a new context was stored under its connection identifier. */
    | Opened(context: EdhocContext, cid: ConnectionId)
    /** Message 3: the stored context did not expect this identifier; it was dropped. */
    | Mismatched(context: EdhocContext, cid: ConnectionId)
    /** Message 3: processed, then dropped without binding. */
    | Rejected(context: EdhocContext, cid: ConnectionId, accepted: bool)
    /** Message 3: accepted, taken out of the dictionary, and OSCORE binding attempted. */
    | Completed(context: EdhocContext, cid: ConnectionId, bound: bool)

  ghost function Acts(step: Step): Trace {
    match step
    case Refused => []
    case Abandoned(c, answered) =>
      if answered then [Allocated(c), SetUp(c), AnsweredMessage1(c), Freed(c)]
      else [Allocated(c), SetUp(c), Freed(c)]
    case Opened(c, cid) => [Allocated(c), SetUp(c), AnsweredMessage1(c), Stored(c, cid)]
    case Mismatched(c, cid) => [Removed(c, cid), Freed(c)]
    case Rejected(c, cid, accepted) => [ProcessedMessage3(c, accepted), Removed(c, cid), Freed(c)]
    case Completed(c, cid, bound) => [ProcessedMessage3(c, true), Removed(c, cid), Bound(c, bound), Freed(c)]
  }

  /** The Message 1 path adds its acts one after the other. */
  lemma ActsOfMessage1(before: Trace, c: EdhocContext, answered: bool, cid: ConnectionId)
    ensures var asked := before + [Allocated(c), SetUp(c)] + (if answered then [AnsweredMessage1(c)] else []);
            && asked + [] == asked
            && asked + [Freed(c)] == before + Acts(Abandoned(c, answered))
            && (answered ==> asked + [Stored(c, cid)] == before + Acts(Opened(c, cid)))
  {
  }

  ghost predicate Enabled(s: ServerState, step: Step, capacity: nat) {
    match step
    case Refused => true
    case Abandoned(c, _) => c !in Contexts(s.trace)
    case Opened(c, cid) => c !in Contexts(s.trace) && cid !in s.pending && |s.pending| < capacity
    case Mismatched(c, cid) => cid in s.pending && s.pending[cid] == c
    case Rejected(c, cid, _) => cid in s.pending && s.pending[cid] == c
    case Completed(c, cid, _) => cid in s.pending && s.pending[cid] == c
  }

  ghost function Apply(s: ServerState, step: Step): ServerState {
    var pending :=
      match step
      case Opened(c, cid) => s.pending[cid := c]
      case Mismatched(_, cid) => s.pending - {cid}
      case Rejected(_, cid, _) => s.pending - {cid}
      case Completed(_, cid, _) => s.pending - {cid}
      case _ => s.pending;
    ServerState(pending, s.trace + Acts(step))
  }

  /** The state after a run, provided that every step was enabled where it was taken. */
  ghost function Run(steps: seq<Step>): ServerState {
    if steps == [] then INITIAL else Apply(Run(steps[..|steps| - 1]), steps[|steps| - 1])
  }

  ghost predicate IsRun(steps: seq<Step>, capacity: nat) {
    steps == [] ||
    (IsRun(steps[..|steps| - 1], capacity)
     && Enabled(Run(steps[..|steps| - 1]), steps[|steps| - 1], capacity))
  }

  lemma RunOneMore(steps: seq<Step>, step: Step, capacity: nat)
    requires IsRun(steps, capacity) && Enabled(Run(steps), step, capacity)
    ensures IsRun(steps + [step], capacity) && Run(steps + [step]) == Apply(Run(steps), step)
  {
    assert (steps + [step])[..|steps|] == steps;
  }

  // ---- The invariant ----

  /** Outside a POST, a context that was ever mentioned is either stored under its key or freed. */
  ghost predicate Settled(s: ServerState, c: EdhocContext) {
    match LifeOf(s.trace, c)
    case Pending(cid) => cid in s.pending && s.pending[cid] == c
    case Gone => true
    case _ => false
  }

  ghost predicate Inv(s: ServerState, capacity: nat) {
    && |s.pending| <= capacity
    && (forall c | c in Contexts(s.trace) :: Settled(s, c))
    && (forall cid | cid in s.pending ::
          s.pending[cid] in Contexts(s.trace) && LifeOf(s.trace, s.pending[cid]) == Pending(cid))
    && Allocations(s.trace) == Frees(s.trace) + |s.pending|
  }

  /** What a burst of two to four events does, one event at a time. */
  lemma AppendTwo(t: Trace, u: Trace, c: EdhocContext)
    requires |u| == 2
    ensures LifeOf(t + u, c) == Touch(Touch(LifeOf(t, c), u[0], c), u[1], c)
    ensures Allocations(t + u) == Allocations(t) + Allocating(u[0]) + Allocating(u[1])
    ensures Frees(t + u) == Frees(t) + Freeing(u[0]) + Freeing(u[1])
  {
    AppendEvent(t, u[0], c);
    AppendEvent(t + [u[0]], u[1], c);
    assert t + u == t + [u[0]] + [u[1]];
  }

  lemma AppendThree(t: Trace, u: Trace, c: EdhocContext)
    requires |u| == 3
    ensures LifeOf(t + u, c) == Touch(Touch(Touch(LifeOf(t, c), u[0], c), u[1], c), u[2], c)
    ensures Allocations(t + u) == Allocations(t) + Allocating(u[0]) + Allocating(u[1]) + Allocating(u[2])
    ensures Frees(t + u) == Frees(t) + Freeing(u[0]) + Freeing(u[1]) + Freeing(u[2])
  {
    AppendTwo(t, u[..2], c);
    AppendEvent(t + u[..2], u[2], c);
    assert t + u == t + u[..2] + [u[2]];
  }

  lemma AppendFour(t: Trace, u: Trace, c: EdhocContext)
    requires |u| == 4
    ensures LifeOf(t + u, c) == Touch(Touch(Touch(Touch(LifeOf(t, c), u[0], c), u[1], c), u[2], c), u[3], c)
    ensures Allocations(t + u) ==
            Allocations(t) + Allocating(u[0]) + Allocating(u[1]) + Allocating(u[2]) + Allocating(u[3])
    ensures Frees(t + u) == Frees(t) + Freeing(u[0]) + Freeing(u[1]) + Freeing(u[2]) + Freeing(u[3])
  {
    AppendThree(t, u[..3], c);
    AppendEvent(t + u[..3], u[3], c);
    assert t + u == t + u[..3] + [u[3]];
  }

  lemma ContextsOfActs(step: Step)
    requires !step.Refused?
    ensures Contexts(Acts(step)) == {step.context}
  {
    var u := Acts(step);
    assert u[0].context == step.context;
    assert forall i :: 0 <= i < |u| ==> u[i].context == step.context;
  }

  /** A step leaves other contexts alone, and its own either stored or freed. */
  lemma ActsOfStep(t: Trace, step: Step, c: EdhocContext)
    requires !step.Refused?
    ensures c != step.context ==> LifeOf(t + Acts(step), c) == LifeOf(t, c)
    ensures c == step.context && step.Abandoned? && LifeOf(t, c) == Unborn ==> LifeOf(t + Acts(step), c) == Gone
    ensures c == step.context && step.Opened? && LifeOf(t, c) == Unborn ==>
              LifeOf(t + Acts(step), c) == Pending(step.cid)
    ensures c == step.context && !step.Abandoned? && !step.Opened? && LifeOf(t, c) == Pending(step.cid) ==>
              LifeOf(t + Acts(step), c) == Gone
    ensures Allocations(t + Acts(step)) ==
            Allocations(t) + if step.Abandoned? || step.Opened? then 1 else 0
    ensures Frees(t + Acts(step)) == Frees(t) + if step.Opened? then 0 else 1
    ensures Contexts(t + Acts(step)) == Contexts(t) + {step.context}
  {
    var u := Acts(step);
    ContextsOfBoth(t, u);
    ContextsOfActs(step);
    if |u| == 2 {
      AppendTwo(t, u, c);
    } else if |u| == 3 {
      AppendThree(t, u, c);
    } else {
      AppendFour(t, u, c);
    }
  }

  lemma StepSettles(s: ServerState, step: Step, capacity: nat, c: EdhocContext)
    requires Inv(s, capacity) && Enabled(s, step, capacity) && !step.Refused?
    requires c in Contexts(s.trace) || c == step.context
    ensures Settled(Apply(s, step), c)
  {
    ActsOfStep(s.trace, step, c);
    if c !in Contexts(s.trace) {
      UnmentionedIsUnborn(s.trace, c);
    } else {
      assert Settled(s, c);
    }
  }

  lemma StepKeepsInv(s: ServerState, step: Step, capacity: nat)
    requires Inv(s, capacity) && Enabled(s, step, capacity)
    ensures Inv(Apply(s, step), capacity)
  {
    var s' := Apply(s, step);
    if step.Refused? {
      assert s'.trace == s.trace;
    } else {
      var own := step.context;
      ActsOfStep(s.trace, step, own);
      if own !in Contexts(s.trace) {
        UnmentionedIsUnborn(s.trace, own);
      }
      forall c | c in Contexts(s'.trace)
        ensures Settled(s', c)
      {
        StepSettles(s, step, capacity, c);
      }
      forall cid | cid in s'.pending
        ensures s'.pending[cid] in Contexts(s'.trace) && LifeOf(s'.trace, s'.pending[cid]) == Pending(cid)
      {
        ActsOfStep(s.trace, step, s'.pending[cid]);
      }
      if !step.Abandoned? && !step.Opened? {
        assert |s'.pending| == |s.pending| - 1 by {
          assert s'.pending.Keys == s.pending.Keys - {step.cid};
        }
      }
    }
  }

  lemma {:induction false} InvOverRuns(steps: seq<Step>, capacity: nat)
    requires IsRun(steps, capacity)
    ensures Inv(Run(steps), capacity)
  {
    if steps != [] {
      InvOverRuns(steps[..|steps| - 1], capacity);
      StepKeepsInv(Run(steps[..|steps| - 1]), steps[|steps| - 1], capacity);
    }
  }

  // ---- What a lawful trace says about its contexts ----

  ghost predicate Lawful(t: Trace) {
    forall c | c in Contexts(t) :: LifeOf(t, c) != Wrong
  }

  /** Wrong is for ever, so every prefix of a lawful trace is lawful. */
  lemma {:induction false} PrefixIsLawful(t: Trace, i: nat, c: EdhocContext)
    requires i <= |t| && LifeOf(t, c) != Wrong
    ensures LifeOf(t[..i], c) != Wrong
  {
    if i < |t| {
      assert t[..|t| - 1][..i] == t[..i];
      PrefixIsLawful(t[..|t| - 1], i, c);
    } else {
      assert t[..i] == t;
    }
  }

  /** The event at i was legal for its context where it happened. */
  lemma EventIsLegal(t: Trace, i: nat)
    requires Lawful(t) && i < |t|
    ensures Advance(LifeOf(t[..i], t[i].context), t[i]) != Wrong
    ensures LifeOf(t[..i + 1], t[i].context) == Advance(LifeOf(t[..i], t[i].context), t[i])
  {
    var c := t[i].context;
    assert c in Contexts(t);
    PrefixIsLawful(t, i + 1, c);
    assert t[..i + 1][..i] == t[..i];
  }

  ghost function Rank(life: Life): nat {
    match life
    case Unborn => 0
    case Blank => 1
    case Ready => 2
    case Answered => 3
    case Pending(_) => 4
    case Judged(_, _) => 5
    case Detached(_, _) => 6
    case Exported(_) => 7
    case Gone => 8
    case Wrong => 9
  }

  /** Lives only move forward. */
  lemma {:induction false} RankNeverFalls(t: Trace, i: nat, j: nat, c: EdhocContext)
    requires i <= j <= |t| && LifeOf(t, c) != Wrong
    ensures Rank(LifeOf(t[..i], c)) <= Rank(LifeOf(t[..j], c)) < 9
  {
    PrefixIsLawful(t, j, c);
    if i < j {
      RankNeverFalls(t, i, j - 1, c);
      assert t[..j][..j - 1] == t[..j - 1];
    }
  }

  /** A later event on the same context finds it at least where the earlier one left it. */
  lemma LaterEventsStartLater(t: Trace, i: nat, j: nat)
    requires Lawful(t) && i < j < |t| && t[i].context == t[j].context
    ensures Rank(LifeOf(t[..i], t[i].context)) < Rank(LifeOf(t[..i + 1], t[i].context))
              <= Rank(LifeOf(t[..j], t[j].context)) < Rank(LifeOf(t[..j + 1], t[j].context))
    ensures LifeOf(t[..i + 1], t[i].context) == Advance(LifeOf(t[..i], t[i].context), t[i])
    ensures LifeOf(t[..j + 1], t[j].context) == Advance(LifeOf(t[..j], t[j].context), t[j])
  {
    var c := t[i].context;
    assert c in Contexts(t);
    EventIsLegal(t, i);
    EventIsLegal(t, j);
    RankNeverFalls(t, i + 1, j, c);
  }

  /** A context past its birth was allocated. */
  lemma {:induction false} BornByAllocation(t: Trace, c: EdhocContext) returns (i: nat)
    requires LifeOf(t, c) != Unborn && LifeOf(t, c) != Wrong
    ensures i < |t| && t[i] == Allocated(c)
  {
    var n := |t| - 1;
    if t[n] == Allocated(c) {
      i := n;
    } else {
      assert LifeOf(t[..n], c) != Unborn;
      i := BornByAllocation(t[..n], c);
    }
  }

  /** A context waiting for Message 3 was stored under that identifier. */
  lemma {:induction false} PendingWasStored(t: Trace, c: EdhocContext) returns (i: nat)
    requires LifeOf(t, c).Pending?
    ensures i < |t| && t[i] == Stored(c, LifeOf(t, c).cid)
  {
    var n := |t| - 1;
    if t[n].context == c {
      i := n;
    } else {
      i := PendingWasStored(t[..n], c);
    }
  }

  /** A context whose Message 3 was judged was stored first. */
  lemma {:induction false} JudgedWasStored(t: Trace, c: EdhocContext) returns (i: nat, j: nat)
    requires LifeOf(t, c).Judged?
    ensures i < j < |t| && t[i] == Stored(c, LifeOf(t, c).cid)
            && t[j] == ProcessedMessage3(c, LifeOf(t, c).accepted)
  {
    var n := |t| - 1;
    if t[n].context == c {
      i := PendingWasStored(t[..n], c);
      j := n;
    } else {
      i, j := JudgedWasStored(t[..n], c);
    }
  }

  /** A context out of the dictionary with an accepted Message 3 was stored, judged and removed, in that order. */
  lemma {:induction false} DetachedWasAccepted(t: Trace, c: EdhocContext) returns (i: nat, j: nat, k: nat)
    requires LifeOf(t, c).Detached? && LifeOf(t, c).accepted
    ensures i < j < k < |t|
    ensures t[i] == Stored(c, LifeOf(t, c).cid)
            && t[j] == ProcessedMessage3(c, true)
            && t[k] == Removed(c, LifeOf(t, c).cid)
  {
    var n := |t| - 1;
    if t[n].context == c {
      i, j := JudgedWasStored(t[..n], c);
      k := n;
    } else {
      i, j, k := DetachedWasAccepted(t[..n], c);
    }
  }

  /** The contexts alive in a lawful trace are those between birth and the end of their life. */
  lemma {:induction false} LiveWhileNotGone(t: Trace, c: EdhocContext)
    requires LifeOf(t, c) != Wrong
    ensures c in LiveContexts(t) <==> LifeOf(t, c) != Unborn && LifeOf(t, c) != Gone
  {
    if t != [] {
      var n := |t| - 1;
      PrefixIsLawful(t, n, c);
      LiveWhileNotGone(t[..n], c);
    }
  }

  lemma {:induction false} LiveWereMentioned(t: Trace)
    ensures LiveContexts(t) <= Contexts(t)
  {
    if t != [] {
      var n := |t| - 1;
      LiveWereMentioned(t[..n]);
      assert Contexts(t[..n]) <= Contexts(t);
      assert t[n].context in Contexts(t);
    }
  }

  lemma SettledIsLawful(s: ServerState, capacity: nat)
    requires Inv(s, capacity)
    ensures Lawful(s.trace)
  {
    forall c | c in Contexts(s.trace)
      ensures LifeOf(s.trace, c) != Wrong
    {
      assert Settled(s, c);
    }
  }

  // ---- The theorems, for every run ----

  ghost predicate Owned(s: ServerState, capacity: nat) {
    && LiveContexts(s.trace) == s.pending.Values
    && (forall a, b | a in s.pending && b in s.pending && s.pending[a] == s.pending[b] :: a == b)
    && Allocations(s.trace) == Frees(s.trace) + |s.pending|
    && |s.pending| <= capacity
  }

  /** In a settled state the live contexts are exactly those in occupied slots, each in one slot. */
  lemma SettledIsOwned(s: ServerState, capacity: nat)
    requires Inv(s, capacity)
    ensures Owned(s, capacity)
  {
    SettledIsLawful(s, capacity);
    LiveWereMentioned(s.trace);
    forall c | c in LiveContexts(s.trace)
      ensures c in s.pending.Values
    {
      LiveWhileNotGone(s.trace, c);
      assert Settled(s, c);
    }
    forall cid | cid in s.pending
      ensures s.pending[cid] in LiveContexts(s.trace)
    {
      LiveWhileNotGone(s.trace, s.pending[cid]);
    }
  }

  /** After any run no context has leaked and none is owned twice. */
  lemma OwnershipOverRuns(steps: seq<Step>, capacity: nat)
    requires IsRun(steps, capacity)
    ensures Owned(Run(steps), capacity)
  {
    InvOverRuns(steps, capacity);
    SettledIsOwned(Run(steps), capacity);
  }

  /** An allocation is the first act on its context; every other act comes after one and before any free. */
  ghost predicate TouchedAlive(t: Trace, i: nat)
    requires i < |t|
  {
    && (t[i].Allocated? ==> forall j :: 0 <= j < i ==> t[j].context != t[i].context)
    && (!t[i].Allocated? ==> exists j :: 0 <= j < i && t[j] == Allocated(t[i].context))
    && (forall j :: 0 <= j < i ==> t[j] != Freed(t[i].context))
  }

  /** An earlier act on the same context was no free, and the later one is no allocation. */
  lemma NoEarlierFree(t: Trace, j: nat, i: nat)
    requires Lawful(t) && j < i < |t| && t[j].context == t[i].context
    ensures !t[i].Allocated? && !t[j].Freed?
  {
    EventIsLegal(t, j);
    EventIsLegal(t, i);
    LaterEventsStartLater(t, j, i);
  }

  lemma WasAllocated(t: Trace, i: nat)
    requires Lawful(t) && i < |t| && !t[i].Allocated?
    ensures exists j :: 0 <= j < i && t[j] == Allocated(t[i].context)
  {
    EventIsLegal(t, i);
    var j := BornByAllocation(t[..i], t[i].context);
    assert t[j] == t[..i][j];
  }

  lemma LawfulIsTouchedAlive(t: Trace, i: nat)
    requires Lawful(t) && i < |t|
    ensures TouchedAlive(t, i)
  {
    if !t[i].Allocated? {
      WasAllocated(t, i);
    }
    forall j | 0 <= j < i && t[j].context == t[i].context
      ensures !t[i].Allocated? && !t[j].Freed?
    {
      NoEarlierFree(t, j, i);
    }
  }

  /** No context is freed twice, touched after its free, or touched before it exists. */
  lemma NoUseAfterFree(steps: seq<Step>, capacity: nat)
    requires IsRun(steps, capacity)
    ensures forall i :: 0 <= i < |Run(steps).trace| ==> TouchedAlive(Run(steps).trace, i)
  {
    var s := Run(steps);
    InvOverRuns(steps, capacity);
    SettledIsLawful(s, capacity);
    forall i | 0 <= i < |s.trace|
      ensures TouchedAlive(s.trace, i)
    {
      LawfulIsTouchedAlive(s.trace, i);
    }
  }

  /** The acts that led to the binding at i: stored by Message 1, accepted by Message 3, taken out, then bound. */
  ghost predicate BindingEarned(t: Trace, i: nat)
    requires i < |t|
  {
    exists a, b, d, cid ::
      0 <= a < b < d < i
      && t[a] == Stored(t[i].context, cid)
      && t[b] == ProcessedMessage3(t[i].context, true)
      && t[d] == Removed(t[i].context, cid)
  }

  /** Both events consume the same context the same way. */
  ghost predicate ConsumedTwice(t: Trace, i: nat, j: nat)
    requires i < |t| && j < |t|
  {
    t[i].context == t[j].context
    && ((t[i].ProcessedMessage3? && t[j].ProcessedMessage3?) || (t[i].Bound? && t[j].Bound?))
  }

  lemma NotConsumedTwice(t: Trace, i: nat, j: nat)
    requires Lawful(t) && i < j < |t|
    ensures !ConsumedTwice(t, i, j)
  {
    if t[i].context == t[j].context {
      EventIsLegal(t, i);
      EventIsLegal(t, j);
      LaterEventsStartLater(t, i, j);
    }
  }

  lemma BindingIsEarned(t: Trace, i: nat)
    requires Lawful(t) && i < |t| && t[i].Bound?
    ensures BindingEarned(t, i)
  {
    EventIsLegal(t, i);
    var c := t[i].context;
    var a, b, d := DetachedWasAccepted(t[..i], c);
    assert t[a] == t[..i][a] && t[b] == t[..i][b] && t[d] == t[..i][d];
  }

  /** One context sees at most one Message 3 and at most one binding, and every binding was earned. */
  lemma OneShotConsumption(steps: seq<Step>, capacity: nat)
    requires IsRun(steps, capacity)
    ensures forall i, j :: 0 <= i < j < |Run(steps).trace| ==> !ConsumedTwice(Run(steps).trace, i, j)
    ensures forall i :: 0 <= i < |Run(steps).trace| && Run(steps).trace[i].Bound? ==>
                          BindingEarned(Run(steps).trace, i)
  {
    var t := Run(steps).trace;
    InvOverRuns(steps, capacity);
    SettledIsLawful(Run(steps), capacity);
    forall i, j | 0 <= i < j < |t|
      ensures !ConsumedTwice(t, i, j)
    {
      NotConsumedTwice(t, i, j);
    }
    forall i | 0 <= i < |t| && t[i].Bound?
      ensures BindingEarned(t, i)
    {
      BindingIsEarned(t, i);
    }
  }

  // ---- From acts back to steps ----

  lemma {:induction false} PrefixIsRun(steps: seq<Step>, capacity: nat, n: nat)
    requires IsRun(steps, capacity) && n <= |steps|
    ensures IsRun(steps[..n], capacity)
  {
    if n < |steps| {
      PrefixIsRun(steps[..|steps| - 1], capacity, n);
      assert steps[..|steps| - 1][..n] == steps[..n];
    } else {
      assert steps[..n] == steps;
    }
  }

  /** A pending session was opened by a step, under its identifier. */
  lemma {:induction false} PendingWasOpened(steps: seq<Step>, capacity: nat, cid: ConnectionId) returns (j: nat)
    requires IsRun(steps, capacity) && cid in Run(steps).pending
    ensures j < |steps| && steps[j] == Opened(Run(steps).pending[cid], cid)
  {
    var n := |steps| - 1;
    if steps[n].Opened? && steps[n].cid == cid {
      j := n;
    } else {
      j := PendingWasOpened(steps[..n], capacity, cid);
    }
  }

  /** A session that a Message 3 consumed was opened by an earlier step, under the same identifier. */
  lemma ConsumedWasOpened(steps: seq<Step>, capacity: nat, k: nat) returns (j: nat)
    requires IsRun(steps, capacity) && k < |steps|
    requires steps[k].Mismatched? || steps[k].Rejected? || steps[k].Completed?
    ensures j < k && steps[j] == Opened(steps[k].context, steps[k].cid)
  {
    PrefixIsRun(steps, capacity, k + 1);
    assert steps[..k + 1][..k] == steps[..k];
    j := PendingWasOpened(steps[..k], capacity, steps[k].cid);
  }

  /** Every binding in the trace is the act of a step that completed a session. */
  lemma {:induction false} BoundByCompletion(steps: seq<Step>, i: nat) returns (k: nat)
    requires i < |Run(steps).trace| && Run(steps).trace[i].Bound?
    ensures k < |steps| && steps[k].Completed?
    ensures Run(steps).trace[i] == Bound(steps[k].context, steps[k].bound)
  {
    var n := |steps| - 1;
    var before := Run(steps[..n]).trace;
    assert Run(steps).trace == before + Acts(steps[n]);
    if i < |before| {
      k := BoundByCompletion(steps[..n], i);
    } else {
      assert Acts(steps[n])[i - |before|] == Run(steps).trace[i];
      k := n;
    }
  }

  /** Every step of a run that opens a session uses this identifier. */
  ghost predicate OpensOnly(steps: seq<Step>, cid: ConnectionId) {
    forall i :: 0 <= i < |steps| && steps[i].Opened? ==> steps[i].cid == cid
  }

  /** At most this one key. */
  ghost predicate OnlyKey(pending: SessionMap, cid: ConnectionId) {
    forall k :: k in pending ==> k == cid
  }

  lemma OneKeyIsOneEntry(pending: SessionMap, cid: ConnectionId)
    requires OnlyKey(pending, cid)
    ensures |pending| <= 1 && (pending != map[] ==> cid in pending)
  {
    if cid in pending {
      assert pending.Keys == {cid};
    } else {
      assert pending == map[];
    }
  }

  /** With a constant identifier generator at most one handshake is pending, and none opens beside it. */
  lemma {:induction false} ConstantGeneratorPendsOne(steps: seq<Step>, capacity: nat, cid: ConnectionId)
    requires IsRun(steps, capacity) && OpensOnly(steps, cid)
    ensures OnlyKey(Run(steps).pending, cid) && |Run(steps).pending| <= 1
    ensures Run(steps).pending != map[] ==>
              forall c :: !Enabled(Run(steps), Opened(c, cid), capacity)
  {
    if steps != [] {
      var before := steps[..|steps| - 1];
      assert OpensOnly(before, cid);
      ConstantGeneratorPendsOne(before, capacity, cid);
      var step := steps[|steps| - 1];
      assert step.Opened? ==> step.cid == cid;
      assert OnlyKey(Apply(Run(before), step).pending, cid);
    }
    OneKeyIsOneEntry(Run(steps).pending, cid);
  }
}
