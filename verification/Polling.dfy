/** Waiting with a bounded number of polls (wait.ExponentialBackoff runs its condition at most Steps times). */
module Polling {
  import opened Basics
  import opened Resources
  import opened Traces
  import opened Clouds

  method WaitLoadbalancerActiveStatus(cloud: Cloud, id: nat) returns (err: Option<Error>)
    requires cloud.Valid()
    modifies cloud`w, cloud`trace
    ensures cloud.Valid() && Settled(old(cloud.w), cloud.w, id)
    ensures Polled(old(cloud.trace), cloud.trace, id, ACTIVE_STEPS)
    ensures WaitedActive(old(cloud.trace), cloud.trace, id, err)
    ensures err.None? ==> Ready(cloud.trace, id) && id in cloud.w.lbs && cloud.w.lbs[id].lb.status == Active
  {
    var steps := ACTIVE_STEPS;
    while steps > 0
      invariant 0 <= steps <= ACTIVE_STEPS
      invariant cloud.Valid() && Settled(old(cloud.w), cloud.w, id)
      invariant Polled(old(cloud.trace), cloud.trace, id, ACTIVE_STEPS - steps)
      invariant Pending(old(cloud.trace), cloud.trace, id, ACTIVE_STEPS - steps)
    {
      ghost var before := cloud.w;
      var reply := cloud.Get(id);
      SettledTransitive(old(cloud.w), before, cloud.w, id);
      steps := steps - 1;
      if reply.Err? && reply.error == Unprocessable {
        continue;
      } else if reply.Err? {
        return Some(ErrApi(reply.error));
      }
      if reply.value.status == Active {
        return None;
      } else if reply.value.status == Broken {
        return Some(ErrStatus);
      }
    }
    return Some(ErrTimeout);
  }

  method WaitLoadbalancerDeleted(cloud: Cloud, id: nat) returns (err: Option<Error>)
    requires cloud.Valid()
    modifies cloud`w, cloud`trace
    ensures cloud.Valid() && Settled(old(cloud.w), cloud.w, id)
    ensures Polled(old(cloud.trace), cloud.trace, id, DELETE_STEPS)
    ensures WaitedGone(old(cloud.trace), cloud.trace, id, err)
    ensures err.None? ==> !LiveAt(cloud.w, id)
  {
    var steps := DELETE_STEPS;
    while steps > 0
      invariant 0 <= steps <= DELETE_STEPS
      invariant cloud.Valid() && Settled(old(cloud.w), cloud.w, id)
      invariant Polled(old(cloud.trace), cloud.trace, id, DELETE_STEPS - steps)
      invariant Lingering(old(cloud.trace), cloud.trace, id, DELETE_STEPS - steps)
    {
      ghost var before := cloud.w;
      var reply := cloud.Get(id);
      SettledTransitive(old(cloud.w), before, cloud.w, id);
      steps := steps - 1;
      if reply.Err? {
        if reply.error == NotFound {
          return None;
        }
        return Some(ErrApi(reply.error));
      }
      if reply.value.status == Deleted {
        return None;
      }
    }
    return Some(ErrTimeout);
  }

  lemma SettledTransitive(w0: World, w1: World, w2: World, id: nat)
    requires Settled(w0, w1, id) && Settled(w1, w2, id)
    ensures Settled(w0, w2, id)
  {
  }
}
