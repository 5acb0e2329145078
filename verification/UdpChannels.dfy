/**
How the channels of the UDP forwarder come and go: a channel that is added can be sent on, one that
is removed is closed, and closing the forwarder closes all of them.
*/
module UdpChannels {
  import opened Common
  import opened Wire
  import opened UdpForward

  lemma ExecOneMore(actions: seq<Action>, a: Action)
    ensures Exec(actions + [a]) == Step(Exec(actions), a)
  {
    assert (actions + [a])[..|actions|] == actions;
  }

  // ---------------------------------------------------------------- adding and receiving

  /**
  From every reachable state, unless the forwarder is closed, adding a channel for a tag makes an
  empty one on which the datagrams of that tag are sent from then on.
  */
  lemma AddedChannelIsReady(actions: seq<Action>, id: nat)
    requires id < TAGS
    ensures var s := Exec(actions);
            var s' := Step(s, AddChannel(id));
            if s.closed then s' == s
            else
              && s'.chans == s.chans + [Chan(id, [], 0, false)]
              && id in s'.channelMap && s'.channelMap[id] == |s.chans|
              && (s.worker.Serving? ==> UdpForward.Ready(s', |s.chans|))
  {
  }

  /** What is in a channel is between 0 and 1024 packets. */
  ghost predicate Bounded(c: Chan) {
    c.received <= |c.sent| <= c.received + 1024
  }

  lemma DemuxKeepsBounds(s: State, buf: Bytes, ch: nat)
    requires ch < |s.chans| && Bounded(s.chans[ch])
    ensures ch < |Demux(s, buf).chans| && Bounded(Demux(s, buf).chans[ch])
  {
  }

  lemma StepKeepsBounds(s: State, a: Action, ch: nat)
    requires ch < |Step(s, a).chans| && (ch < |s.chans| ==> Bounded(s.chans[ch]))
    ensures Bounded(Step(s, a).chans[ch])
  {
    StepKeepsTags(s, a);
    if a.Datagram? {
      DemuxKeepsBounds(s, a.buf, ch);
    }
  }

  /**
  In every run a channel holds at most 1024 packets that have not been received, they are received
  in the order they were sent, and receiving one makes room for another.
  */
  lemma {:induction false} ChannelIsBounded(actions: seq<Action>, ch: nat)
    requires ch < |Exec(actions).chans|
    ensures Bounded(Exec(actions).chans[ch])
    ensures var c := Exec(actions).chans[ch];
            var c' := Step(Exec(actions), Consume(ch)).chans[ch];
            if c.received == |c.sent| then c' == c else c' == c.(received := c.received + 1) && HasRoom(c')
  {
    if actions != [] {
      var before := actions[..|actions| - 1];
      if ch < |Exec(before).chans| {
        ChannelIsBounded(before, ch);
      }
      StepKeepsBounds(Exec(before), actions[|actions| - 1], ch);
    }
  }

  // ---------------------------------------------------------------- the connection is lost

  lemma StepStaysSilent(s: State, a: Action, ch: nat)
    requires !s.worker.Serving? && ch < |s.chans|
    ensures !Step(s, a).worker.Serving? && ch < |Step(s, a).chans| && Step(s, a).chans[ch].sent == s.chans[ch].sent
  {
  }

  /** Once the connection is lost, nothing is sent on any channel any more. */
  lemma {:induction false} NothingAfterConnectionLost(actions: seq<Action>, more: seq<Action>, ch: nat)
    requires ch < |Exec(actions).chans|
    ensures var s := Exec(actions + [ConnectionLost] + more);
            !s.worker.Serving? && ch < |s.chans| && s.chans[ch].sent == Exec(actions).chans[ch].sent
    decreases |more|
  {
    var lost := actions + [ConnectionLost];
    if more == [] {
      assert lost + more == lost;
      ExecOneMore(actions, ConnectionLost);
    } else {
      var n := |more| - 1;
      NothingAfterConnectionLost(actions, more[..n], ch);
      assert lost + more == (lost + more[..n]) + [more[n]];
      ExecOneMore(lost + more[..n], more[n]);
      StepStaysSilent(Exec(lost + more[..n]), more[n], ch);
    }
  }

  // ---------------------------------------------------------------- a channel that is removed is closed

  function TakeTimes(s: State, n: nat): State
    decreases n
  {
    if n == 0 then s else TakeTimes(Step(s, TakeClosing), n - 1)
  }

  /** The tag is gone from the map and its channel is closed. */
  predicate IsRemoved(s: State, id: nat, ch: nat) {
    id !in s.channelMap && ch < |s.chans| && s.chans[ch].closed
  }

  /** The worker still takes requests. */
  predicate TakesRequests(s: State) {
    s.worker.Serving? || s.worker.Draining?
  }

  lemma TakeOne(s: State)
    requires Inv(s) && TakesRequests(s) && s.closing != []
    ensures var s' := Step(s, TakeClosing);
            && Inv(s') && s'.worker == s.worker && s'.closing == s.closing[1..]
            && s'.channelMap == s.channelMap - {s.closing[0]}
            && (s.closing[0] in s.channelMap ==> IsRemoved(s', s.closing[0], s.channelMap[s.closing[0]]))
            && (forall ch :: 0 <= ch < |s.chans| && s.chans[ch].closed ==> ch < |s'.chans| && s'.chans[ch].closed)
  {
    ClosingKeepsInv(s);
    if s.closing[0] in s.channelMap {
      assert EntryOk(s, s.closing[0]);
    }
  }

  lemma {:induction false} StaysRemoved(s: State, id: nat, ch: nat, n: nat)
    requires Inv(s) && TakesRequests(s) && n <= |s.closing| && IsRemoved(s, id, ch)
    ensures IsRemoved(TakeTimes(s, n), id, ch)
    decreases n
  {
    if n > 0 {
      TakeOne(s);
      StaysRemoved(Step(s, TakeClosing), id, ch, n - 1);
    }
  }

  lemma {:induction false} RequestIsCarriedOut(s: State, i: nat)
    requires Inv(s) && TakesRequests(s) && i < |s.closing| && s.closing[i] in s.channelMap
    ensures IsRemoved(TakeTimes(s, i + 1), s.closing[i], s.channelMap[s.closing[i]])
    decreases i
  {
    var id := s.closing[i];
    TakeOne(s);
    var s' := Step(s, TakeClosing);
    if s.closing[0] == id {
      StaysRemoved(s', id, s.channelMap[id], i);
    } else {
      assert s'.closing[i - 1] == id;
      RequestIsCarriedOut(s', i - 1);
    }
  }

  /**
  From every reachable state in which the worker takes requests and there is room for one more,
  asking for a channel to be removed has it removed and closed once the worker has taken the requests.
  */
  lemma RemovedChannelIsClosed(actions: seq<Action>, id: nat)
    requires var s := Exec(actions); TakesRequests(s) && !s.closed && |s.closing| < 10 && id in s.channelMap
    ensures var s := Exec(actions);
            IsRemoved(TakeTimes(Step(s, RemoveChannel(id)), |s.closing| + 1), id, s.channelMap[id])
  {
    ReachableInv(actions);
    var s := Exec(actions);
    StepKeepsInv(s, RemoveChannel(id));
    RequestIsCarriedOut(Step(s, RemoveChannel(id)), |s.closing|);
  }

  // ---------------------------------------------------------------- closing the forwarder

  lemma {:induction false} TakeAll(actions: seq<Action>) returns (more: seq<Action>)
    requires Exec(actions).closed && TakesRequests(Exec(actions))
    ensures Exec(more).worker.Sweeping? && actions <= more
    decreases |Exec(actions).closing|
  {
    ReachableInv(actions);
    ExecOneMore(actions, TakeClosing);
    more := actions + [TakeClosing];
    if Exec(actions).closing != [] {
      TakeOne(Exec(actions));
      TakeKeepsClosed(Exec(actions));
      more := TakeAll(more);
    }
  }

  lemma TakeKeepsClosed(s: State)
    requires s.closed
    ensures Step(s, TakeClosing).closed
  {
  }

  lemma SweepOne(s: State, id: nat)
    requires Inv(s) && s.worker.Sweeping? && id in s.worker.todo
    ensures Step(s, SweepNext(id)).worker == Sweeping(s.worker.todo - {id})
  {
    assert EntryOk(s, id);
  }

  lemma {:induction false} SweepAll(actions: seq<Action>) returns (more: seq<Action>)
    requires Exec(actions).worker.Sweeping?
    ensures Exec(more).worker.Exited? && actions <= more
    decreases |Exec(actions).worker.todo|
  {
    var todo := Exec(actions).worker.todo;
    if todo == {} {
      more := actions + [SweepNext(0)];
      ExecOneMore(actions, SweepNext(0));
    } else {
      var id :| id in todo;
      ReachableInv(actions);
      ExecOneMore(actions, SweepNext(id));
      SweepOne(Exec(actions), id);
      more := SweepAll(actions + [SweepNext(id)]);
    }
  }

  /** After Close no channel is added and no request is accepted any more. */
  lemma ClosedRefuses(actions: seq<Action>, id: nat)
    requires Exec(actions).closed
    ensures Step(Exec(actions), AddChannel(id)) == Step(Exec(actions), RemoveChannel(id)) == Exec(actions)
  {
  }

  /**
  From every reachable state, after Close the worker can finish, and when it has, every channel
  that is in the map is closed.
  */
  lemma CloseFinishes(actions: seq<Action>) returns (more: seq<Action>)
    ensures actions + [Close] <= more
    ensures var s := Exec(more);
            && s.closed && s.worker.Exited?
            && forall id :: id in s.channelMap ==> s.channelMap[id] < |s.chans| && s.chans[s.channelMap[id]].closed
  {
    more := actions + [Close];
    ExecOneMore(actions, Close);
    if TakesRequests(Exec(more)) {
      more := TakeAll(more);
    }
    if Exec(more).worker.Sweeping? {
      more := SweepAll(more);
    }
    ReachableInv(more);
    NoPanicAndAllClosed(more);
  }
}
