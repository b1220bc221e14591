/** The history of calls that change or observe a load balancer, newest last. */
module Traces {
  import opened Basics
  import opened Resources

  datatype Event =
    | Observed(id: nat, status: Status) // a poll that returned the load balancer
    | Refused(id: nat, error: ApiError) // a poll answered with an error, 422 included
    | WroteNodes(id: nat)               // create or delete of members
    | WroteBalancer(id: nat)            // create or update of the load balancer or its access list
    | Removed(id: nat)                  // delete of the load balancer

  datatype Trace = Start | Then(before: Trace, event: Event)

  /** The latest event about `id` is an observation of ACTIVE. */
  predicate Ready(t: Trace, id: nat) {
    t.Then? && if t.event.id == id then t.event == Observed(id, Active) else Ready(t.before, id)
  }

  /** Every member write found its load balancer ready. */
  predicate ActiveProtocol(t: Trace) {
    t.Then? ==> ActiveProtocol(t.before) && (t.event.WroteNodes? ==> Ready(t.before, t.event.id))
  }

  function Length(t: Trace): nat {
    if t.Start? then 0 else Length(t.before) + 1
  }

  function At(t: Trace, k: nat): Event
    requires k < Length(t)
  {
    if k == Length(t) - 1 then t.event else At(t.before, k)
  }

  ghost predicate LastAboutIsActive(t: Trace, k: nat, id: nat)
    requires k <= Length(t)
  {
    exists j :: 0 <= j < k && At(t, j) == Observed(id, Active) && forall i :: j < i < k ==> At(t, i).id != id
  }

  lemma {:induction false} ReadyMeaning(t: Trace, id: nat)
    ensures Ready(t, id) <==> LastAboutIsActive(t, Length(t), id)
  {
    if t.Then? {
      ReadyMeaning(t.before, id);
      var n := Length(t.before);
      assert At(t, n) == t.event;
      assert forall i :: 0 <= i < n ==> At(t, i) == At(t.before, i);
      if t.event.id != id && Ready(t.before, id) {
        var j :| 0 <= j < n && At(t.before, j) == Observed(id, Active)
                 && forall i :: j < i < n ==> At(t.before, i).id != id;
        assert At(t, j) == Observed(id, Active);
      }
      if t.event.id != id && LastAboutIsActive(t, n + 1, id) {
        var j :| 0 <= j < n + 1 && At(t, j) == Observed(id, Active)
                 && forall i :: j < i < n + 1 ==> At(t, i).id != id;
        assert j < n && At(t.before, j) == Observed(id, Active);
      }
    }
  }

  ghost predicate WritesFollowActive(t: Trace) {
    forall k :: 0 <= k < Length(t) ==> WriteFollowsActive(t, k)
  }

  ghost predicate WriteFollowsActive(t: Trace, k: nat)
    requires k < Length(t)
  {
    At(t, k).WroteNodes? ==> LastAboutIsActive(t, k, At(t, k).id)
  }

  /** The protocol in terms of positions: each member write follows an ACTIVE observation with nothing between. */
  lemma {:induction false} ActiveProtocolMeaning(t: Trace)
    ensures ActiveProtocol(t) <==> WritesFollowActive(t)
  {
    if t.Then? {
      var p := t.before;
      var n := Length(p);
      ActiveProtocolMeaning(p);
      ReadyMeaning(p, t.event.id);
      PrefixAbout(t, n, t.event.id);
      forall k | 0 <= k < n ensures WriteFollowsActive(t, k) <==> WriteFollowsActive(p, k) {
        PrefixAbout(t, k, At(t, k).id);
      }
      assert WriteFollowsActive(t, n) <==> (t.event.WroteNodes? ==> Ready(p, t.event.id));
      assert WritesFollowActive(t) ==> WriteFollowsActive(t, n);
      if WritesFollowActive(t) {
        assert forall k :: 0 <= k < n ==> WriteFollowsActive(t, k);
      }
    }
  }

  lemma PrefixAbout(t: Trace, k: nat, id: nat)
    requires t.Then? && k <= Length(t.before)
    ensures LastAboutIsActive(t, k, id) <==> LastAboutIsActive(t.before, k, id)
  {
    var p := t.before;
    assert forall i :: 0 <= i < k ==> At(t, i) == At(p, i);
    if LastAboutIsActive(t, k, id) {
      var j :| 0 <= j < k && At(t, j) == Observed(id, Active) && forall i :: j < i < k ==> At(t, i).id != id;
      assert At(p, j) == Observed(id, Active);
    }
    if LastAboutIsActive(p, k, id) {
      var j :| 0 <= j < k && At(p, j) == Observed(id, Active) && forall i :: j < i < k ==> At(p, i).id != id;
      assert At(t, j) == Observed(id, Active);
    }
  }

  /** How often members of `id` were written. */
  function NodeWrites(t: Trace, id: nat): nat {
    if t.Start? then 0 else NodeWrites(t.before, id) + if t.event == WroteNodes(id) then 1 else 0
  }

  /** `t'` adds nothing but polls of `id` to `t`. */
  predicate OnlyPolls(t: Trace, t': Trace, id: nat)
    decreases t'
  {
    t' == t ||
    (t'.Then? && (t'.event.Observed? || t'.event.Refused?) && t'.event.id == id && OnlyPolls(t, t'.before, id))
  }

  /** `t'` adds at most `n` polls of `id` to `t`. */
  predicate Polled(t: Trace, t': Trace, id: nat, n: nat) {
    OnlyPolls(t, t', id) && Length(t') <= Length(t) + n
  }

  datatype Kind = Poll | NodeWrite | BalancerWrite | Removal

  function KindOf(e: Event): Kind {
    match e
    case Observed(_, _) => Poll
    case Refused(_, _) => Poll
    case WroteNodes(_) => NodeWrite
    case WroteBalancer(_) => BalancerWrite
    case Removed(_) => Removal
  }

  /** What may happen while ports are served, and what may happen while load balancers are deleted. */
  const SERVING: set<Kind> := {Poll, NodeWrite, BalancerWrite}

  const REMOVING: set<Kind> := {Poll, Removal}

  /** `t'` adds nothing but events of these kinds to `t`. */
  predicate Adds(t: Trace, t': Trace, kinds: set<Kind>)
    decreases t'
  {
    t' == t || (t'.Then? && KindOf(t'.event) in kinds && Adds(t, t'.before, kinds))
  }

  /** Polling writes nothing. */
  lemma {:induction false} PollsWriteNothing(t: Trace, t': Trace, id: nat)
    requires OnlyPolls(t, t', id)
    ensures ActiveProtocol(t) ==> ActiveProtocol(t')
    ensures forall i :: NodeWrites(t', i) == NodeWrites(t, i)
    ensures Adds(t, t', {Poll})
    decreases t'
  {
    if t' != t {
      PollsWriteNothing(t, t'.before, id);
    }
  }

  lemma {:induction false} AddsThen(t0: Trace, t1: Trace, t2: Trace, a: set<Kind>, b: set<Kind>, kinds: set<Kind>)
    requires Adds(t0, t1, a) && Adds(t1, t2, b) && a + b <= kinds
    ensures Adds(t0, t2, kinds)
    decreases t2
  {
    if t2 == t1 {
      AddsMore(t0, t1, a, kinds);
    } else {
      AddsThen(t0, t1, t2.before, a, b, kinds);
    }
  }

  lemma AddsNone(t: Trace, kinds: set<Kind>)
    ensures Adds(t, t, kinds)
  {
  }

  lemma {:induction false} AddsMore(t: Trace, t': Trace, a: set<Kind>, kinds: set<Kind>)
    requires Adds(t, t', a) && a <= kinds
    ensures Adds(t, t', kinds)
    decreases t'
  {
    if t' != t {
      AddsMore(t, t'.before, a, kinds);
    }
  }

  lemma {:induction false} AddsLonger(t: Trace, t': Trace, kinds: set<Kind>)
    requires Adds(t, t', kinds)
    ensures Length(t) <= Length(t') && (Length(t) == Length(t') ==> t == t')
    decreases t'
  {
    if t' != t {
      AddsLonger(t, t'.before, kinds);
    }
  }

  /** What holds of the events of a whole holds of its parts. */
  lemma {:induction false} AddsParts(t0: Trace, t1: Trace, t2: Trace, a: set<Kind>, b: set<Kind>, kinds: set<Kind>)
    requires Adds(t0, t1, a) && Adds(t1, t2, b) && Adds(t0, t2, kinds)
    ensures Adds(t0, t1, kinds) && Adds(t1, t2, kinds)
    decreases t2
  {
    if t2 != t1 {
      AddsLonger(t0, t1, a);
      AddsLonger(t1, t2.before, b);
      AddsParts(t0, t1, t2.before, a, b, kinds);
    }
  }

  /** Polls change no count of writes, and other events are not polls. */
  lemma {:induction false} OnlyPollsAdded(t: Trace, t': Trace)
    requires Adds(t, t', {Poll})
    ensures forall id :: NodeWrites(t', id) == NodeWrites(t, id)
    ensures Adds(t, t', {BalancerWrite}) ==> t' == t
    decreases t'
  {
    if t' != t {
      OnlyPollsAdded(t, t'.before);
    }
  }

  /** First a phase without removals, then one of nothing but removals and polls. */
  ghost predicate RemovesLast(t: Trace, t': Trace) {
    exists t1 :: Adds(t, t1, SERVING) && Adds(t1, t', REMOVING)
  }

  /** A poll after which a wait for ACTIVE goes on. */
  predicate Unsettled(e: Event, id: nat) {
    || (e.Observed? && e.id == id && e.status != Active && e.status != Broken)
    || e == Refused(id, Unprocessable)
  }

  /** A poll after which a wait for the end of a load balancer goes on. */
  predicate Remains(e: Event, id: nat) {
    e.Observed? && e.id == id && e.status != Deleted
  }

  /** `t'` adds exactly `n` polls to `t`, and after each the wait went on. */
  predicate Pending(t: Trace, t': Trace, id: nat, n: nat) {
    if n == 0 then t' == t else t'.Then? && Unsettled(t'.event, id) && Pending(t, t'.before, id, n - 1)
  }

  predicate Lingering(t: Trace, t': Trace, id: nat, n: nat) {
    if n == 0 then t' == t else t'.Then? && Remains(t'.event, id) && Lingering(t, t'.before, id, n - 1)
  }

  /** A wait for ACTIVE that ended in time with the poll `last`. */
  ghost predicate SettledBy(t: Trace, t': Trace, id: nat, last: Event) {
    exists n: nat :: n < ACTIVE_STEPS && t'.Then? && t'.event == last && Pending(t, t'.before, id, n)
  }

  ghost predicate EndedBy(t: Trace, t': Trace, id: nat, last: Event) {
    exists n: nat :: n < DELETE_STEPS && t'.Then? && t'.event == last && Lingering(t, t'.before, id, n)
  }

  /** The polls of a wait for ACTIVE and what came of it. */
  ghost predicate WaitedActive(t: Trace, t': Trace, id: nat, err: Option<Error>) {
    match err
    case None => SettledBy(t, t', id, Observed(id, Active))
    case Some(ErrStatus) => SettledBy(t, t', id, Observed(id, Broken))
    case Some(ErrApi(cause)) => cause != Unprocessable && SettledBy(t, t', id, Refused(id, cause))
    case Some(e) => e == ErrTimeout && Pending(t, t', id, ACTIVE_STEPS)
  }

  /** The polls of a wait for the end of a load balancer and what came of it. */
  ghost predicate WaitedGone(t: Trace, t': Trace, id: nat, err: Option<Error>) {
    match err
    case None => EndedBy(t, t', id, Refused(id, NotFound)) || EndedBy(t, t', id, Observed(id, Deleted))
    case Some(ErrApi(cause)) => cause != NotFound && EndedBy(t, t', id, Refused(id, cause))
    case Some(e) => e == ErrTimeout && Lingering(t, t', id, DELETE_STEPS)
  }

  const EVERY: set<Kind> := {Poll, NodeWrite, BalancerWrite, Removal}

  /** Since `t0` something happened, and then a wait failed: it is the last thing in `t`. */
  ghost predicate Stuck(t0: Trace, t: Trace) {
    || (exists t1, id, e :: Adds(t0, t1, EVERY) && WaitedActive(t1, t, id, Some(e)))
    || (exists t1, id, e :: Adds(t0, t1, EVERY) && WaitedGone(t1, t, id, Some(e)))
  }

  /** A success means that no request failed; a failure has a request or a wait to blame. */
  ghost predicate Accounted(ok: bool, faults0: nat, t0: Trace, faults: nat, t: Trace) {
    if ok then faults == faults0 else faults > faults0 || Stuck(t0, t)
  }

  lemma AnyKinds(kinds: set<Kind>)
    ensures kinds <= EVERY
  {
    forall k | k in kinds ensures k in EVERY {
      match k case Poll => case NodeWrite => case BalancerWrite => case Removal =>
    }
  }

  lemma FaultAccounted(faults0: nat, t0: Trace, faults: nat, t: Trace)
    requires faults > faults0
    ensures Accounted(false, faults0, t0, faults, t)
  {
  }

  lemma AccountedLater(faults0: nat, t0: Trace, t1: Trace, faults: nat, t: Trace, kinds: set<Kind>, ok: bool)
    requires Adds(t0, t1, kinds) && Accounted(ok, faults0, t1, faults, t)
    ensures Accounted(ok, faults0, t0, faults, t)
  {
    hide WaitedActive, WaitedGone;
    AnyKinds(kinds);
    forall u | Adds(t1, u, EVERY) ensures Adds(t0, u, EVERY) {
      AddsThen(t0, t1, u, kinds, EVERY, EVERY);
    }
  }

  lemma WaitAccounted(faults0: nat, t0: Trace, t1: Trace, t: Trace, id: nat, err: Option<Error>, kinds: set<Kind>)
    requires Adds(t0, t1, kinds) && (WaitedActive(t1, t, id, err) || WaitedGone(t1, t, id, err))
    ensures Accounted(err.None?, faults0, t0, faults0, t)
  {
    hide WaitedActive, WaitedGone;
    AnyKinds(kinds);
    AddsMore(t0, t1, kinds, EVERY);
  }
}
