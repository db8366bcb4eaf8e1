/** The status stream: the first report in full, then only the pieces that changed. */
module StatStream {
  import opened Collections

  datatype Priority = NONE | NORMAL | HIGH | READAHEAD | NEXT | NOW

  datatype Piece = Piece(position: int, complete: bool, priority: Priority)

  datatype Status = INITIALIZATION | SEEDING | IDLE | TERMINATED | WAITING_FOR_PEERS | RESTORING | BACKINGUP

  datatype Reply = Reply(completed: int, total: int, peers: int, status: Status, pieces: seq<Piece>)

  /** Whether `diff` skips piece `i` of `a`. */
  predicate Same(a: seq<Piece>, b: seq<Piece>, i: nat)
    requires i < |a|
  {
    i < |b| && a[i].complete == b[i].complete && a[i].priority == b[i].priority
  }

  /** The changed pieces among the first `n` of `a`. */
  function Changed(a: seq<Piece>, b: seq<Piece>, n: nat): seq<Piece>
    requires n <= |a|
  {
    if n == 0 then []
    else if Same(a, b, n - 1) then Changed(a, b, n - 1)
    else Changed(a, b, n - 1) + [a[n - 1]]
  }

  /** A piece is sent exactly when it is new or differs from the old one at its place. */
  lemma {:induction false} ChangedExactly(a: seq<Piece>, b: seq<Piece>, n: nat, p: Piece)
    requires n <= |a|
    ensures p in Changed(a, b, n) <==>
            exists i :: 0 <= i < n && a[i] == p
                        && (i >= |b| || a[i].complete != b[i].complete || a[i].priority != b[i].priority)
  {
    if n > 0 {
      ChangedExactly(a, b, n - 1, p);
    }
  }

  method Diff(a: seq<Piece>, b: seq<Piece>) returns (d: seq<Piece>)
    ensures d == Changed(a, b, |a|)
    ensures forall p :: p in d <==>
              exists i :: 0 <= i < |a| && a[i] == p
                          && (i >= |b| || a[i].complete != b[i].complete || a[i].priority != b[i].priority)
  {
    forall p
      ensures p in Changed(a, b, |a|) <==>
              exists i :: 0 <= i < |a| && a[i] == p
                          && (i >= |b| || a[i].complete != b[i].complete || a[i].priority != b[i].priority)
    {
      ChangedExactly(a, b, |a|, p);
    }
    d := [];
    for i := 0 to |a|
      invariant d == Changed(a, b, i)
    {
      if i < |b| {
        if a[i].complete == b[i].complete && a[i].priority == b[i].priority {
          continue;
        }
      }
      d := d + [a[i]];
    }
  }

  // ---- the receiving end ----

  /** Reports list pieces by position. */
  ghost predicate InPosition(pieces: seq<Piece>) {
    forall i :: 0 <= i < |pieces| ==> pieces[i].position == i
  }

  /** A client puts a piece where its position says, growing its vector when needed. */
  function Placed(view: seq<Piece>, p: Piece): seq<Piece> {
    if 0 <= p.position < |view| then view[p.position := p] else view + [p]
  }

  function Received(view: seq<Piece>, message: seq<Piece>): seq<Piece> {
    if message == [] then view
    else Placed(Received(view, message[..|message| - 1]), message[|message| - 1])
  }

  lemma {:induction false} ReceivedChanged(a: seq<Piece>, b: seq<Piece>, n: nat)
    requires InPosition(a) && InPosition(b) && n <= |a|
    ensures Received(b, Changed(a, b, n)) == a[..n] + if n < |b| then b[n..] else []
  {
    if n > 0 {
      ReceivedChanged(a, b, n - 1);
      var c, rest := Changed(a, b, n - 1), if n - 1 < |b| then b[n - 1..] else [];
      assert Received(b, c) == a[..n - 1] + rest;
      assert a[..n] == a[..n - 1] + [a[n - 1]];
      var tail := if n < |b| then b[n..] else [];
      assert rest != [] ==> rest[1..] == tail;
      assert a[..n - 1] + ([a[n - 1]] + tail) == a[..n] + tail;
      if Same(a, b, n - 1) {
        assert rest == [a[n - 1]] + tail;
      } else {
        assert (c + [a[n - 1]])[..|c|] == c;
        PlacedNext(a[..n - 1], rest, a[n - 1]);
      }
    }
  }

  /** Placing the piece that comes right after a prefix. */
  lemma PlacedNext(done: seq<Piece>, rest: seq<Piece>, p: Piece)
    requires p.position == |done|
    ensures Placed(done + rest, p) == done + [p] + if rest == [] then [] else rest[1..]
  {
    if rest == [] {
      assert done + rest == done;
    }
  }

  lemma {:induction false} ReceivedGrows(view: seq<Piece>, message: seq<Piece>)
    ensures |Received(view, message)| >= |view|
  {
    if message != [] {
      ReceivedGrows(view, message[..|message| - 1]);
    }
  }

  /** Applying a diff to what it was taken against gives the new vector, exactly when the piece count
      has not shrunk. */
  lemma DiffRoundTrip(a: seq<Piece>, b: seq<Piece>)
    requires InPosition(a) && InPosition(b)
    ensures Received(b, Changed(a, b, |a|)) == a <==> |b| <= |a|
  {
    ReceivedChanged(a, b, |a|);
    ReceivedGrows(b, Changed(a, b, |a|));
    assert a[..|a|] == a;
  }

  /** The first report reaches a client that has nothing yet. */
  lemma {:induction false} FirstReport(a: seq<Piece>, n: nat)
    requires InPosition(a) && n <= |a|
    ensures Received([], a[..n]) == a[..n]
  {
    if n > 0 {
      FirstReport(a, n - 1);
      assert a[..n][..n - 1] == a[..n - 1];
    }
  }

  // ---- the send loop ----

  /** `prev` is the last report the loop decided to send, `sent` the messages that went out. */
  datatype Server = Server(prev: Option<Reply>, sent: seq<Reply>, stopped: bool)

  predicate Worthwhile(s: Server, rep: Reply) {
    s.prev.None? || rep.completed != s.prev.value.completed || rep.peers != s.prev.value.peers
  }

  function Message(s: Server, rep: Reply): Reply {
    rep.(pieces := if s.prev.None? then rep.pieces else Changed(rep.pieces, s.prev.value.pieces, |rep.pieces|))
  }

  predicate Finished(rep: Reply) {
    rep.total == rep.completed && rep.status != INITIALIZATION && rep.status != RESTORING
  }

  /** One turn of the loop: a report, or an error in getting one; sending may fail. */
  function Turn(s: Server, rep: Option<Reply>, sendOk: bool): Server {
    if s.stopped then s
    else if rep.None? then s.(stopped := true)
    else if !Worthwhile(s, rep.value) then s
    else if !sendOk then Server(rep, s.sent, true)
    else Server(rep, s.sent + [Message(s, rep.value)], Finished(rep.value))
  }

  function Turns(reps: seq<Option<Reply>>, sendOk: seq<bool>, n: nat): Server
    requires n <= |reps| == |sendOk|
  {
    if n == 0 then Server(None, [], false) else Turn(Turns(reps, sendOk, n - 1), reps[n - 1], sendOk[n - 1])
  }

  lemma {:induction false} StoppedForGood(reps: seq<Option<Reply>>, sendOk: seq<bool>, m: nat, n: nat)
    requires m <= n <= |reps| == |sendOk| && Turns(reps, sendOk, m).stopped
    ensures Turns(reps, sendOk, n) == Turns(reps, sendOk, m)
  {
    if m < n {
      StoppedForGood(reps, sendOk, m, n - 1);
    }
  }

  /** What a client has after the messages sent so far. */
  function View(sent: seq<Reply>): seq<Piece> {
    if sent == [] then [] else Received(View(sent[..|sent| - 1]), sent[|sent| - 1].pieces)
  }

  /** The report behind the last message that went out. */
  function LastSent(reps: seq<Option<Reply>>, sendOk: seq<bool>, n: nat): seq<Piece>
    requires n <= |reps| == |sendOk|
  {
    if n == 0 then []
    else
      var before, after := Turns(reps, sendOk, n - 1), Turns(reps, sendOk, n);
      if |after.sent| > |before.sent| && reps[n - 1].Some? then reps[n - 1].value.pieces
      else LastSent(reps, sendOk, n - 1)
  }

  /** Reports list their pieces by position, and the piece count never shrinks. */
  ghost predicate Steady(reps: seq<Option<Reply>>) {
    && (forall i :: 0 <= i < |reps| && reps[i].Some? ==> InPosition(reps[i].value.pieces))
    && (forall i, j :: 0 <= i <= j < |reps| && reps[i].Some? && reps[j].Some? ==>
          |reps[i].value.pieces| <= |reps[j].value.pieces|)
  }

  /** While the loop runs, `prev` is one of the reports and is what was sent last. */
  lemma {:induction false} PrevIsLastSent(reps: seq<Option<Reply>>, sendOk: seq<bool>, n: nat)
    requires n <= |reps| == |sendOk|
    ensures var s := Turns(reps, sendOk, n);
            && (s.prev.Some? ==> exists i :: 0 <= i < n && reps[i] == s.prev)
            && (s.prev.None? ==> s.sent == [] && LastSent(reps, sendOk, n) == [])
            && (!s.stopped && s.prev.Some? ==> LastSent(reps, sendOk, n) == s.prev.value.pieces)
  {
    if n > 0 {
      PrevIsLastSent(reps, sendOk, n - 1);
    }
  }

  /** Round trip: after every message, a client that overwrites pieces by position holds exactly the
      pieces of the last report sent, although reports that change neither the byte count nor the
      peer count are never sent. */
  lemma {:induction false} ClientHoldsLastSent(reps: seq<Option<Reply>>, sendOk: seq<bool>, n: nat)
    requires n <= |reps| == |sendOk| && Steady(reps)
    ensures View(Turns(reps, sendOk, n).sent) == LastSent(reps, sendOk, n)
  {
    if n > 0 {
      ClientHoldsLastSent(reps, sendOk, n - 1);
      TurnUpdatesClient(reps, sendOk, n);
    }
  }

  /** A turn that sends nothing changes nothing; one that does brings the client up to the report. */
  lemma TurnUpdatesClient(reps: seq<Option<Reply>>, sendOk: seq<bool>, n: nat)
    requires 0 < n <= |reps| == |sendOk| && Steady(reps)
    requires View(Turns(reps, sendOk, n - 1).sent) == LastSent(reps, sendOk, n - 1)
    ensures View(Turns(reps, sendOk, n).sent) == LastSent(reps, sendOk, n)
  {
    PrevIsLastSent(reps, sendOk, n - 1);
    var before, after, rep := Turns(reps, sendOk, n - 1), Turns(reps, sendOk, n), reps[n - 1];
    if !before.stopped && rep.Some? && Worthwhile(before, rep.value) && sendOk[n - 1] {
      assert after.sent == before.sent + [Message(before, rep.value)];
      assert after.sent[..|after.sent| - 1] == before.sent;
      MessageUpdatesClient(before, rep.value, View(before.sent));
    } else {
      assert after.sent == before.sent;
    }
  }

  /** The message for a report turns a client holding the previous report's pieces into one holding
      the new report's. */
  lemma MessageUpdatesClient(s: Server, rep: Reply, view: seq<Piece>)
    requires InPosition(rep.pieces)
    requires if s.prev.None? then view == [] else
               view == s.prev.value.pieces && InPosition(view) && |view| <= |rep.pieces|
    ensures Received(view, Message(s, rep).pieces) == rep.pieces
  {
    if s.prev.None? {
      FirstReport(rep.pieces, |rep.pieces|);
      assert rep.pieces[..|rep.pieces|] == rep.pieces;
    } else {
      DiffRoundTrip(rep.pieces, view);
    }
  }

  // ---- the loop itself ----

  /** How a stream stands: still polling, ended with everything complete, or broken off. */
  datatype Outcome = Polling | Completed | StatFailed | SendFailed

  /** `count` messages have been sent, and report `rep` has not the counts of the last. */
  predicate IsNews(sent: seq<Reply>, count: nat, rep: Reply)
    requires count <= |sent|
  {
    count == 0 || rep.completed != sent[count - 1].completed || rep.peers != sent[count - 1].peers
  }

  /** Report `i` was relayed as the message after `before` others, or had nothing new. */
  ghost predicate RelayedAt(rep: Option<Reply>, sendOk: bool, before: nat, after: nat, sent: seq<Reply>) {
    && rep.Some? && before <= after <= |sent|
    && if IsNews(sent, before, rep.value)
       then sendOk && after == before + 1 && sent[before] == rep.value.(pieces := sent[before].pieces)
            && (rep.value.total != rep.value.completed || rep.value.status == INITIALIZATION || rep.value.status == RESTORING)
       else after == before
  }

  /** The first `n` reports have been relayed, `cnt[i]` messages for the first `i` of them. */
  ghost predicate Relayed(reps: seq<Option<Reply>>, sendOk: seq<bool>, n: nat, cnt: seq<nat>, sent: seq<Reply>)
    requires n <= |reps| == |sendOk|
  {
    && |cnt| == n + 1 && cnt[0] == 0 && cnt[n] == |sent|
    && forall i :: 0 <= i < n ==> RelayedAt(reps[i], sendOk[i], cnt[i], cnt[i + 1], sent)
  }

  lemma RelayedMore(rep: Option<Reply>, sendOk: bool, before: nat, after: nat, sent: seq<Reply>, message: Reply)
    requires RelayedAt(rep, sendOk, before, after, sent)
    ensures RelayedAt(rep, sendOk, before, after, sent + [message])
  {
    assert before < |sent| ==> (sent + [message])[before] == sent[before];
    assert before > 0 ==> (sent + [message])[before - 1] == sent[before - 1];
  }

  lemma RelayedNext(reps: seq<Option<Reply>>, sendOk: seq<bool>, n: nat, cnt: seq<nat>, sent: seq<Reply>, message: Reply)
    requires n < |reps| == |sendOk| && Relayed(reps, sendOk, n, cnt, sent)
    requires RelayedAt(reps[n], sendOk[n], |sent|, |sent| + 1, sent + [message])
    ensures Relayed(reps, sendOk, n + 1, cnt + [|sent| + 1], sent + [message])
  {
    var cnt' := cnt + [|sent| + 1];
    forall i | 0 <= i < n + 1
      ensures RelayedAt(reps[i], sendOk[i], cnt'[i], cnt'[i + 1], sent + [message])
    {
      if i < n {
        assert cnt'[i] == cnt[i] && cnt'[i + 1] == cnt[i + 1];
        RelayedMore(reps[i], sendOk[i], cnt[i], cnt[i + 1], sent, message);
      }
    }
  }

  lemma RelayedSkip(reps: seq<Option<Reply>>, sendOk: seq<bool>, n: nat, cnt: seq<nat>, sent: seq<Reply>)
    requires n < |reps| == |sendOk| && Relayed(reps, sendOk, n, cnt, sent)
    requires RelayedAt(reps[n], sendOk[n], |sent|, |sent|, sent)
    ensures Relayed(reps, sendOk, n + 1, cnt + [|sent|], sent)
  {
    var cnt' := cnt + [|sent|];
    forall i | 0 <= i < n + 1
      ensures RelayedAt(reps[i], sendOk[i], cnt'[i], cnt'[i + 1], sent)
    {
      if i < n {
        assert cnt'[i] == cnt[i] && cnt'[i + 1] == cnt[i + 1];
      }
    }
  }

  /** What relaying means.  A message goes out for a report exactly when it is the first or has other counts
      than the last message; it has the counts and the status of its report; and none of the reports
      relayed says that everything is complete. */
  lemma RelayedMeans(reps: seq<Option<Reply>>, sendOk: seq<bool>, n: nat, cnt: seq<nat>, sent: seq<Reply>, i: nat)
    requires n <= |reps| == |sendOk| && Relayed(reps, sendOk, n, cnt, sent) && i < n
    ensures reps[i].Some? && cnt[i] <= cnt[i + 1] <= |sent|
    ensures cnt[i + 1] == cnt[i] <==>
            && cnt[i] > 0 && reps[i].value.completed == sent[cnt[i] - 1].completed
            && reps[i].value.peers == sent[cnt[i] - 1].peers
    ensures cnt[i + 1] != cnt[i] ==>
              && sendOk[i] && cnt[i + 1] == cnt[i] + 1 && sent[cnt[i]] == reps[i].value.(pieces := sent[cnt[i]].pieces)
              && (|| reps[i].value.total != reps[i].value.completed
                  || reps[i].value.status == INITIALIZATION || reps[i].value.status == RESTORING)
  {
    assert RelayedAt(reps[i], sendOk[i], cnt[i], cnt[i + 1], sent);
  }

  /** So, as long as nothing fails and no report says that everything is complete, the client always knows
      the byte and peer counts of the latest report. */
  lemma LatestCountsAreKnown(reps: seq<Option<Reply>>, sendOk: seq<bool>, n: nat, cnt: seq<nat>, sent: seq<Reply>)
    requires 0 < n <= |reps| == |sendOk| && Relayed(reps, sendOk, n, cnt, sent)
    ensures sent != [] && reps[n - 1].Some?
    ensures sent[|sent| - 1].completed == reps[n - 1].value.completed && sent[|sent| - 1].peers == reps[n - 1].value.peers
  {
    RelayedMeans(reps, sendOk, n, cnt, sent, n - 1);
  }

  /** Polls the given reports in turn.  The first `n` have been relayed when it returns; unless it is still
      polling, the next one ended it: an error, a message that could not be sent, or a last message saying
      that everything is complete. */
  method SendLoop(reps: seq<Option<Reply>>, sendOk: seq<bool>)
    returns (prevRep: Option<Reply>, sent: seq<Reply>, outcome: Outcome, ghost n: nat, ghost cnt: seq<nat>)
    requires |reps| == |sendOk|
    ensures prevRep == Turns(reps, sendOk, |reps|).prev && sent == Turns(reps, sendOk, |reps|).sent
    ensures n <= |reps| && (outcome.Completed? ==> sent != [])
    ensures Relayed(reps, sendOk, n, cnt, if outcome.Completed? then sent[..|sent| - 1] else sent)
    ensures outcome.Polling? <==> n == |reps|
    ensures outcome.StatFailed? <==> n < |reps| && reps[n].None?
    ensures outcome.SendFailed? || outcome.Completed? ==>
              var count := if outcome.Completed? then |sent| - 1 else |sent|;
              || count == 0
              || reps[n].value.completed != sent[count - 1].completed || reps[n].value.peers != sent[count - 1].peers
    ensures outcome.SendFailed? ==> !sendOk[n]
    ensures outcome.Completed? ==>
              && sendOk[n] && sent[|sent| - 1] == reps[n].value.(pieces := sent[|sent| - 1].pieces)
              && reps[n].value.total == reps[n].value.completed
              && reps[n].value.status != INITIALIZATION && reps[n].value.status != RESTORING
    ensures Steady(reps) && outcome.Completed? ==> View(sent) == reps[n].value.pieces
    ensures Steady(reps) && !outcome.Completed? && sent != [] ==>
              exists i :: 0 <= i < n && reps[i].Some? && View(sent) == reps[i].value.pieces
                          && sent[|sent| - 1] == reps[i].value.(pieces := sent[|sent| - 1].pieces)
  {
    prevRep, sent, cnt := None, [], [0];
    ghost var last := 0;
    for i := 0 to |reps|
      invariant Turns(reps, sendOk, i) == Server(prevRep, sent, false)
      invariant Relayed(reps, sendOk, i, cnt, sent)
      invariant sent == [] <==> prevRep == None
      invariant sent != [] ==> last < i && reps[last] == prevRep
      invariant sent != [] ==> sent[|sent| - 1] == prevRep.value.(pieces := sent[|sent| - 1].pieces)
      invariant Steady(reps) && sent != [] ==> View(sent) == prevRep.value.pieces
    {
      n := i;
      if reps[i].None? {
        StoppedForGood(reps, sendOk, i + 1, |reps|);
        outcome := StatFailed;
        return;
      }
      var rep := reps[i].value;
      if prevRep.None? || rep.completed != prevRep.value.completed || rep.peers != prevRep.value.peers {
        var diffPieces := rep.pieces;
        if prevRep.Some? {
          diffPieces := Diff(rep.pieces, prevRep.value.pieces);
        }
        ghost var before := Server(prevRep, sent, false);
        prevRep := Some(rep);
        if !sendOk[i] {
          StoppedForGood(reps, sendOk, i + 1, |reps|);
          outcome := SendFailed;
          return;
        }
        var message := rep.(pieces := diffPieces);
        ViewNext(reps, before, rep, message, if sent == [] then i else last, i);
        if rep.total == rep.completed && rep.status != INITIALIZATION && rep.status != RESTORING {
          sent := sent + [message];
          StoppedForGood(reps, sendOk, i + 1, |reps|);
          outcome := Completed;
          return;
        }
        RelayedNext(reps, sendOk, i, cnt, sent, message);
        last, cnt := i, cnt + [|sent| + 1];
        sent := sent + [message];
      } else {
        RelayedSkip(reps, sendOk, i, cnt, sent);
        cnt := cnt + [|sent|];
      }
    }
    outcome, n := Polling, |reps|;
  }

  /** The client keeps up. */
  lemma ViewNext(reps: seq<Option<Reply>>, s: Server, rep: Reply, message: Reply, i: nat, j: nat)
    requires i <= j < |reps| && reps[j] == Some(rep) && message == Message(s, rep)
    requires if s.prev.None? then s.sent == [] else reps[i] == s.prev
    requires Steady(reps) && s.prev.Some? ==> View(s.sent) == s.prev.value.pieces
    ensures Steady(reps) ==> View(s.sent + [message]) == rep.pieces
  {
    if Steady(reps) {
      assert (s.sent + [message])[..|s.sent|] == s.sent;
      MessageUpdatesClient(s, rep, View(s.sent));
    }
  }
}
