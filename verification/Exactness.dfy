// What follows from the log specification alone, for every protocol: which
// pushes are in the store, and that every request is answered exactly once.
module Exactness {
  import opened Wrappers
  import opened ServerLog

  ghost predicate Distinct(s: seq<nat>) {
    forall a, b :: 0 <= a < b < |s| ==> s[a] != s[b]
  }

  // ---------------------------------------------------- what is in the store

  lemma {:induction false} ReleasedIff<P, Q>(
    proto: Protocol, workers: set<nat>, log: seq<Request<P, Q>>, push: bool, n: nat, i: nat)
    requires n < |log| && i < |log|
    ensures i in Released(proto, workers, log, push, n) <==>
            i < n && log[i].op.PushOp? == push
            && !Ready(proto, workers, log[..|log| - 1], i) && Ready(proto, workers, log, i)
    ensures Distinct(Released(proto, workers, log, push, n))
  {
    hide Ready;
    ReleasedBounds(proto, workers, log, push, n);
    if n > 0 {
      ReleasedIff(proto, workers, log, push, n - 1, i);
      ReleasedBounds(proto, workers, log, push, n - 1);
    }
  }

  /** A push is in the store exactly when it is ready, and only once. */
  lemma {:induction false} AppliedIff<P, Q>(proto: Protocol, workers: set<nat>, log: seq<Request<P, Q>>)
    ensures var applied := Applied(proto, workers, log);
            && Distinct(applied)
            && forall i: nat :: i in applied <==> i < |log| && log[i].op.PushOp? && Ready(proto, workers, log, i)
  {
    if log != [] {
      var n := |log| - 1;
      var prev := log[..n];
      AppliedIff(proto, workers, prev);
      AppliedBounds(proto, workers, prev);
      ReleasedBounds(proto, workers, log, true, n);
      forall i: nat | i < n
        ensures Ready(proto, workers, prev, i) ==> Ready(proto, workers, log, i)
      {
        if Ready(proto, workers, prev, i) { ReadyStays(proto, workers, log, n, i); }
      }
      forall i: nat | i < |log|
        ensures i in Released(proto, workers, log, true, n) <==>
                i < n && log[i].op.PushOp? && !Ready(proto, workers, prev, i) && Ready(proto, workers, log, i)
        ensures Distinct(Released(proto, workers, log, true, n))
      {
        ReleasedIff(proto, workers, log, true, n, i);
      }
      AppliedMembers(proto, workers, log);
    }
  }

  lemma AppliedMembers<P, Q>(proto: Protocol, workers: set<nat>, log: seq<Request<P, Q>>)
    requires log != []
    requires var n := |log| - 1;
             var old_ := Applied(proto, workers, log[..n]);
             var rel := Released(proto, workers, log, true, n);
             && Distinct(old_) && Distinct(rel)
             && (forall i: nat :: i in old_ <==> i < n && log[i].op.PushOp? && Ready(proto, workers, log[..n], i))
             && (forall i: nat :: i < n ==> Ready(proto, workers, log[..n], i) ==> Ready(proto, workers, log, i))
             && (forall i: nat :: i in rel <==>
                   i < n && log[i].op.PushOp? && !Ready(proto, workers, log[..n], i) && Ready(proto, workers, log, i))
    ensures var applied := Applied(proto, workers, log);
            && Distinct(applied)
            && forall i: nat :: i in applied <==> i < |log| && log[i].op.PushOp? && Ready(proto, workers, log, i)
  {
    hide Ready, Released;
    var n := |log| - 1;
    var old_ := Applied(proto, workers, log[..n]);
    var rel := Released(proto, workers, log, true, n);
    var own: seq<nat> := if log[n].op.PushOp? && Ready(proto, workers, log, n) then [n] else [];
    assert Applied(proto, workers, log) == old_ + own + rel;
    DistinctConcat(old_, own);
    DistinctConcat(old_ + own, rel);
  }

  lemma DistinctConcat(a: seq<nat>, b: seq<nat>)
    requires Distinct(a) && Distinct(b)
    requires forall x :: x in a ==> x !in b
    ensures Distinct(a + b)
    ensures forall x :: x in a + b <==> x in a || x in b
  {
    forall i, j | 0 <= i < j < |a + b| ensures (a + b)[i] != (a + b)[j] {
      if i < |a| <= j { assert (a + b)[i] in a && (a + b)[j] in b; }
    }
  }

  // -------------------------------------------------------- who is answered

  ghost function WithData<P, Q>(log: seq<Request<P, Q>>, idx: seq<nat>): seq<nat>
    requires forall k :: 0 <= k < |idx| ==> idx[k] < |log|
  {
    if idx == [] then []
    else
      var i := idx[|idx| - 1];
      WithData(log, idx[..|idx| - 1]) + if HasData(log[i]) then [i] else []
  }

  /** The requests answered while the last request of the log is processed. */
  ghost function NewAnswered<P, Q>(proto: Protocol, workers: set<nat>, log: seq<Request<P, Q>>): seq<nat>
    requires log != []
  {
    var n := |log| - 1;
    ReleasedBounds(proto, workers, log, true, n);
    ReleasedBounds(proto, workers, log, false, n);
    (if Ready(proto, workers, log, n) then WithData(log, [n]) else [])
    + WithData(log, Released(proto, workers, log, true, n))
    + WithData(log, Released(proto, workers, log, false, n))
  }

  /** All requests answered so far, in the order of their replies. */
  ghost function Answered<P, Q>(proto: Protocol, workers: set<nat>, log: seq<Request<P, Q>>): seq<nat> {
    if log == [] then []
    else Answered(proto, workers, log[..|log| - 1]) + NewAnswered(proto, workers, log)
  }

  lemma {:induction false} WithDataIff<P, Q>(log: seq<Request<P, Q>>, idx: seq<nat>)
    requires forall k :: 0 <= k < |idx| ==> idx[k] < |log|
    requires Distinct(idx)
    ensures var r := WithData(log, idx);
            && Distinct(r)
            && forall i: nat :: i in r <==> i in idx && HasData(log[i])
  {
    if idx != [] {
      WithDataIff(log, idx[..|idx| - 1]);
      assert idx == idx[..|idx| - 1] + [idx[|idx| - 1]];
    }
  }

  /** Whether the last request of the log makes request i ready. */
  ghost predicate Freed<P, Q>(proto: Protocol, workers: set<nat>, log: seq<Request<P, Q>>, i: nat)
    requires i < |log|
  {
    Ready(proto, workers, log, i) && (i < |log| - 1 ==> !Ready(proto, workers, log[..|log| - 1], i))
  }

  lemma LaneAnswered<P, Q>(proto: Protocol, workers: set<nat>, log: seq<Request<P, Q>>, push: bool)
    requires log != []
    ensures var n := |log| - 1;
            var rel := Released(proto, workers, log, push, n);
            && (forall k :: 0 <= k < |rel| ==> rel[k] < n)
            && Distinct(WithData(log, rel))
            && (forall i: nat :: i in WithData(log, rel) <==>
                 i < n && log[i].op.PushOp? == push && HasData(log[i]) && Freed(proto, workers, log, i))
  {
    var n := |log| - 1;
    var rel := Released(proto, workers, log, push, n);
    ReleasedBounds(proto, workers, log, push, n);
    forall i: nat | i < |log|
      ensures i in rel <==> i < n && log[i].op.PushOp? == push && Freed(proto, workers, log, i)
      ensures Distinct(rel)
    {
      ReleasedIff(proto, workers, log, push, n, i);
    }
    hide Ready, Released;
    WithDataIff(log, rel);
  }

  lemma NewAnsweredIff<P, Q>(proto: Protocol, workers: set<nat>, log: seq<Request<P, Q>>)
    requires log != []
    ensures var r := NewAnswered(proto, workers, log);
            && Distinct(r)
            && forall i: nat :: i in r <==> i < |log| && HasData(log[i]) && Freed(proto, workers, log, i)
  {
    hide Ready, Released, WithData;
    var n := |log| - 1;
    LaneAnswered(proto, workers, log, true);
    LaneAnswered(proto, workers, log, false);
    WithDataIff(log, [n]);
    var pushes := WithData(log, Released(proto, workers, log, true, n));
    var pulls := WithData(log, Released(proto, workers, log, false, n));
    var own := if Ready(proto, workers, log, n) then WithData(log, [n]) else [];
    DistinctConcat(own, pushes);
    DistinctConcat(own + pushes, pulls);
  }

  /** In every run, a request has been answered exactly when it carries data and
      is ready, and never twice; an empty one is never answered. */
  lemma {:induction false} AnsweredExactlyOnce<P, Q>(proto: Protocol, workers: set<nat>, log: seq<Request<P, Q>>)
    ensures var r := Answered(proto, workers, log);
            && Distinct(r)
            && forall i: nat :: i in r <==> i < |log| && HasData(log[i]) && Ready(proto, workers, log, i)
  {
    if log != [] {
      var n := |log| - 1;
      var prev := log[..n];
      AnsweredExactlyOnce(proto, workers, prev);
      NewAnsweredIff(proto, workers, log);
      forall i: nat | i < n
        ensures Ready(proto, workers, prev, i) ==> Ready(proto, workers, log, i)
      {
        if Ready(proto, workers, prev, i) { ReadyStays(proto, workers, log, n, i); }
      }
      hide Ready, NewAnswered;
      DistinctConcat(Answered(proto, workers, prev), NewAnswered(proto, workers, log));
    }
  }

  // ------------------------------------------------------ what the reply is

  /** The pushes request i sees when it is answered at the end of the log: all
      that are applied, except that a pull answered on arrival reads the store
      before anything is released. */
  ghost function Seen<P, Q>(proto: Protocol, workers: set<nat>, log: seq<Request<P, Q>>, i: nat): seq<nat>
    requires log != []
  {
    if i == |log| - 1 then Applied(proto, workers, log[..|log| - 1]) else Applied(proto, workers, log)
  }

  ghost function SeenStore<S, P, Q, R>(cfg: Config<S, P, Q, R>, log: seq<Request<P, Q>>, i: nat): S
    requires log != []
  {
    if i == |log| - 1 then Store(cfg, log[..|log| - 1]) else Store(cfg, log)
  }

  lemma {:induction false} AnswersAt<S, P, Q, R>(
    cfg: Config<S, P, Q, R>, store: S, clock: nat, log: seq<Request<P, Q>>, idx: seq<nat>)
    requires forall k :: 0 <= k < |idx| ==> idx[k] < |log|
    ensures var answers := Answers(cfg, store, clock, At(log, idx));
            var who := WithData(log, idx);
            && |answers| == |who|
            && forall k :: 0 <= k < |who| ==> who[k] < |log| && HasData(log[who[k]]) && answers[k] == Answer(cfg, store, clock, log[who[k]])
  {
    if idx != [] {
      var last := |idx| - 1;
      AnswersAt(cfg, store, clock, log, idx[..last]);
      assert At(log, idx)[..last] == At(log, idx[..last]);
    }
  }

  /** These replies answer these requests, each from the store that it sees. */
  ghost predicate Matches<S, P, Q, R>(
    cfg: Config<S, P, Q, R>, log: seq<Request<P, Q>>, clock: nat, who: seq<nat>, replies: seq<Reply<R>>)
    requires log != []
  {
    && |replies| == |who|
    && forall k :: 0 <= k < |who| ==>
         && who[k] < |log| && HasData(log[who[k]])
         && replies[k] == Answer(cfg, SeenStore(cfg, log, who[k]), clock, log[who[k]])
  }

  lemma MatchesBoth<S, P, Q, R>(
    cfg: Config<S, P, Q, R>, log: seq<Request<P, Q>>, clock: nat, a: seq<nat>, ra: seq<Reply<R>>, b: seq<nat>, rb: seq<Reply<R>>)
    requires log != [] && Matches(cfg, log, clock, a, ra) && Matches(cfg, log, clock, b, rb)
    ensures Matches(cfg, log, clock, a + b, ra + rb)
  {
    hide SeenStore, HasData, Answer;
  }

  lemma ReleasedMatch<S, P, Q, R>(cfg: Config<S, P, Q, R>, log: seq<Request<P, Q>>, clock: nat, idx: seq<nat>)
    requires log != [] && forall k :: 0 <= k < |idx| ==> idx[k] < |log| - 1
    ensures Matches(cfg, log, clock, WithData(log, idx), Answers(cfg, Store(cfg, log), clock, At(log, idx)))
  {
    hide Store, At, Answers, WithData;
    AnswersAt(cfg, Store(cfg, log), clock, log, idx);
    WithDataFrom(log, idx, |log| - 1);
  }

  lemma ArrivedMatches<S, P, Q, R>(cfg: Config<S, P, Q, R>, log: seq<Request<P, Q>>, clock: nat)
    requires log != []
    ensures var n := |log| - 1;
            Matches(cfg, log, clock, WithData(log, [n]), Answers(cfg, Store(cfg, log[..n]), clock, [log[n]]))
  {
  }

  lemma StepMatches<S, P, Q, R>(cfg: Config<S, P, Q, R>, log: seq<Request<P, Q>>, clock: nat)
    requires log != []
    ensures Matches(cfg, log, clock, NewAnswered(cfg.proto, cfg.workers, log), NewReplies(cfg, log, clock))
  {
    hide Ready, Store, Matches, WithData, Answers, At, Released;
    var n := |log| - 1;
    ReleasedBounds(cfg.proto, cfg.workers, log, true, n);
    ReleasedBounds(cfg.proto, cfg.workers, log, false, n);
    var pushes := Released(cfg.proto, cfg.workers, log, true, n);
    var pulls := Released(cfg.proto, cfg.workers, log, false, n);
    NothingMatches(cfg, log, clock);
    ArrivedMatches(cfg, log, clock);
    ReleasedMatch(cfg, log, clock, pushes);
    ReleasedMatch(cfg, log, clock, pulls);
    var store := Store(cfg, log);
    var first := if Ready(cfg.proto, cfg.workers, log, n) then WithData(log, [n]) else [];
    var firstReplies := if Ready(cfg.proto, cfg.workers, log, n) then Answers(cfg, Store(cfg, log[..n]), clock, [log[n]]) else [];
    MatchesBoth(cfg, log, clock, first, firstReplies, WithData(log, pushes), Answers(cfg, store, clock, At(log, pushes)));
    MatchesBoth(cfg, log, clock, first + WithData(log, pushes), firstReplies + Answers(cfg, store, clock, At(log, pushes)),
                WithData(log, pulls), Answers(cfg, store, clock, At(log, pulls)));
  }

  /** The k-th reply of a step answers the k-th newly answered request i: it goes to
      that request's sender under that request's number. A pull's carries what the
      query finds in the store the request sees, and the clock exactly when a
      controlled pull asked for it; a push's carries neither. */
  lemma RepliesMatch<S, P, Q, R>(cfg: Config<S, P, Q, R>, log: seq<Request<P, Q>>, clock: nat)
    requires log != []
    ensures var who, replies := NewAnswered(cfg.proto, cfg.workers, log), NewReplies(cfg, log, clock);
            && |replies| == |who|
            && forall k :: 0 <= k < |who| ==>
                 var i := who[k];
                 && i < |log| && replies[k].src == log[i].src && replies[k].ts == log[i].ts
                 && match log[i].op
                    case PushOp(u) => u.Some? && replies[k].vals == None && replies[k].clock == None
                    case PullOp(q) =>
                      && q.Some? && replies[k].vals == Some(cfg.retrieve(SeenStore(cfg, log, i), q.value))
                      && replies[k].clock == if log[i].controlled && log[i].wantClock then Some(clock) else None
  {
    hide NewAnswered, NewReplies, SeenStore;
    StepMatches(cfg, log, clock);
  }

  /** All replies sent while the log was processed, step after step. */
  ghost function AllReplies<S, P, Q, R>(cfg: Config<S, P, Q, R>, log: seq<Request<P, Q>>, clocks: seq<nat>): seq<Reply<R>>
    requires |clocks| == |log|
  {
    if log == [] then []
    else
      var n := |log| - 1;
      AllReplies(cfg, log[..n], clocks[..n]) + NewReplies(cfg, log, clocks[n])
  }

  /** The replies of a whole run go to the senders of the answered requests, under
      their numbers. */
  lemma {:induction false} AllRepliesMatch<S, P, Q, R>(cfg: Config<S, P, Q, R>, log: seq<Request<P, Q>>, clocks: seq<nat>)
    requires |clocks| == |log|
    ensures var who, replies := Answered(cfg.proto, cfg.workers, log), AllReplies(cfg, log, clocks);
            && |replies| == |who|
            && forall k :: 0 <= k < |who| ==>
                 && who[k] < |log| && replies[k].src == log[who[k]].src && replies[k].ts == log[who[k]].ts
                 && (replies[k].vals.Some? <==> log[who[k]].op.PullOp?)
  {
    if log != [] {
      var n := |log| - 1;
      AllRepliesMatch(cfg, log[..n], clocks[..n]);
      RepliesMatch(cfg, log, clocks[n]);
      hide NewAnswered, NewReplies;
    }
  }

  /** In every run, of the requests a sender numbers differently, each that carries
      data gets exactly one reply with its number once it is ready, and none before. */
  lemma OneReplyEach<S, P, Q, R>(cfg: Config<S, P, Q, R>, log: seq<Request<P, Q>>, clocks: seq<nat>, i: nat)
    requires |clocks| == |log| && i < |log|
    requires match log[i].op case PushOp(u) => u.Some? case PullOp(q) => q.Some?
    requires forall j :: 0 <= j < |log| && j != i && HasData(log[j]) ==> log[j].src != log[i].src || log[j].ts != log[i].ts
    ensures var replies := AllReplies(cfg, log, clocks);
            |set k | 0 <= k < |replies| && replies[k].src == log[i].src && replies[k].ts == log[i].ts|
            == if Ready(cfg.proto, cfg.workers, log, i) then 1 else 0
  {
    assert HasData(log[i]);
    AllRepliesMatch(cfg, log, clocks);
    AnsweredExactlyOnce(cfg.proto, cfg.workers, log);
    hide Answered, AllReplies, Ready, HasData, Distinct;
    var who, replies := Answered(cfg.proto, cfg.workers, log), AllReplies(cfg, log, clocks);
    forall k | 0 <= k < |replies| ensures (replies[k].src == log[i].src && replies[k].ts == log[i].ts) <==> who[k] == i {
      assert who[k] in who;
    }
    var mine := set k | 0 <= k < |replies| && replies[k].src == log[i].src && replies[k].ts == log[i].ts;
    assert mine == set k | 0 <= k < |who| && who[k] == i;
    PlacesOf(who, i);
  }

  lemma PlacesOf(s: seq<nat>, x: nat)
    requires Distinct(s)
    ensures |set k | 0 <= k < |s| && s[k] == x| == if x in s then 1 else 0
  {
    var places := set k | 0 <= k < |s| && s[k] == x;
    if x in s {
      var k :| 0 <= k < |s| && s[k] == x;
      assert places == {k};
    } else {
      assert places == {};
    }
  }

  lemma NothingMatches<S, P, Q, R>(cfg: Config<S, P, Q, R>, log: seq<Request<P, Q>>, clock: nat)
    requires log != []
    ensures Matches(cfg, log, clock, [], [])
  {
  }

  lemma {:induction false} WithDataFrom<P, Q>(log: seq<Request<P, Q>>, idx: seq<nat>, n: nat)
    requires forall k :: 0 <= k < |idx| ==> idx[k] < n
    requires n < |log|
    ensures forall k :: 0 <= k < |WithData(log, idx)| ==> WithData(log, idx)[k] < n
  {
    if idx != [] { WithDataFrom(log, idx[..|idx| - 1], n); }
  }

  /** The store a request sees is the epoch's store with the seen pushes. */
  lemma SeenStoreIs<S, P, Q, R>(cfg: Config<S, P, Q, R>, log: seq<Request<P, Q>>, i: nat)
    requires log != []
    ensures var seen := Seen(cfg.proto, cfg.workers, log, i);
            && (forall k :: 0 <= k < |seen| ==> seen[k] < |log|)
            && SeenStore(cfg, log, i) == ApplyAll(cfg, cfg.init, At(log, seen))
  {
    AppliedBounds(cfg.proto, cfg.workers, log);
    AppliedBounds(cfg.proto, cfg.workers, log[..|log| - 1]);
    if i == |log| - 1 {
      var seen := Seen(cfg.proto, cfg.workers, log, i);
      assert At(log[..|log| - 1], seen) == At(log, seen);
    }
  }

  /** A store is built up push by push: nothing leaves it as it is, and one more
      request changes it only if it is a push with an update, by that update. */
  lemma StoreLaw<S, P, Q, R>(cfg: Config<S, P, Q, R>, store: S, log: seq<Request<P, Q>>, idx: seq<nat>, j: nat)
    requires j < |log| && forall k :: 0 <= k < |idx| ==> idx[k] < |log|
    ensures ApplyAll(cfg, store, At(log, [])) == store
    ensures var before := ApplyAll(cfg, store, At(log, idx));
            ApplyAll(cfg, store, At(log, idx + [j])) ==
            match log[j].op
            case PushOp(u) => if u.Some? then cfg.update(before, u.value) else before
            case PullOp(_) => before
  {
    var all := At(log, idx + [j]);
    assert all[..|all| - 1] == At(log, idx);
  }

  predicate Rising(s: seq<nat>) {
    forall i, j :: 0 <= i < j < |s| ==> s[i] < s[j]
  }

  lemma {:induction false} ReleasedRises<P, Q>(proto: Protocol, workers: set<nat>, log: seq<Request<P, Q>>, push: bool, n: nat)
    requires n < |log|
    ensures Rising(Released(proto, workers, log, push, n))
  {
    hide Ready;
    if n > 0 {
      ReleasedRises(proto, workers, log, push, n - 1);
      ReleasedBounds(proto, workers, log, push, n - 1);
    }
  }

  /** The order in which pushes reach the store: those of a step after all earlier
      ones, the arriving push first, and released ones oldest first. */
  lemma AppliedOrder<P, Q>(proto: Protocol, workers: set<nat>, log: seq<Request<P, Q>>)
    requires log != []
    ensures var n := |log| - 1;
            var before, all := Applied(proto, workers, log[..n]), Applied(proto, workers, log);
            && |before| <= |all| && all[..|before|] == before
            && forall i, j :: |before| <= i < j < |all| ==> all[j] < n && (all[i] == n || all[i] < all[j])
  {
    var n := |log| - 1;
    ReleasedRises(proto, workers, log, true, n);
    ReleasedBounds(proto, workers, log, true, n);
    var own := if log[n].op.PushOp? && Ready(proto, workers, log, n) then [n] else [];
    OneThenRising(Applied(proto, workers, log[..n]), own, Released(proto, workers, log, true, n), n);
  }

  lemma OneThenRising(before: seq<nat>, own: seq<nat>, rest: seq<nat>, n: nat)
    requires (own == [] || own == [n]) && Rising(rest) && forall k :: 0 <= k < |rest| ==> rest[k] < n
    ensures var all := before + own + rest;
            && all[..|before|] == before
            && forall i, j :: |before| <= i < j < |all| ==> all[j] < n && (all[i] == n || all[i] < all[j])
  {
  }

  // ------------------------------------------------------ clocks of pushes

  /** Every push a worker has made is somewhere in the log. */
  lemma {:induction false} PushWithClock<P, Q>(log: seq<Request<P, Q>>, w: nat, k: nat) returns (j: nat)
    requires k < Pushes(log, w)
    ensures j < |log| && IsPushBy(log[j], w) && PushClock(log, j) == k
  {
    var n := |log| - 1;
    if k < Pushes(log[..n], w) {
      j := PushWithClock(log[..n], w, k);
      GateStable(Ssp(0), log, n, j);
    } else {
      j := n;
    }
  }

  /** A worker's pushes carry increasing clocks, all below its push count. */
  lemma PushOrder<P, Q>(log: seq<Request<P, Q>>, w: nat, j: nat, n: nat)
    requires j < n <= |log| && IsPushBy(log[j], w)
    ensures PushClock(log, j) + 1 == Pushes(log[..j + 1], w) <= Pushes(log[..n], w)
    ensures n < |log| && log[n].src == w ==> PushClock(log, j) < PushClock(log, n)
  {
    assert log[..j + 1][..j] == log[..j];
    assert log[..n][..j + 1] == log[..j + 1];
    CountsGrow(log[..n], j + 1, w);
  }

  lemma PullOrder<P, Q>(log: seq<Request<P, Q>>, w: nat, j: nat, n: nat)
    requires j < n <= |log| && IsPullBy(log[j], w)
    ensures PullClock(log, j) + 1 == Pulls(log[..j + 1], w) <= Pulls(log[..n], w)
  {
    assert log[..j + 1][..j] == log[..j];
    assert log[..n][..j + 1] == log[..j + 1];
    CountsGrow(log[..n], j + 1, w);
  }

  // ------------------------------------------------- order does not matter

  /** Two updates have the same effect in either order, as additions have. */
  ghost predicate Commutes<S(!new), P(!new), Q, R>(cfg: Config<S, P, Q, R>) {
    forall s: S, a: P, b: P :: cfg.update(cfg.update(s, a), b) == cfg.update(cfg.update(s, b), a)
  }

  lemma {:induction false} MoveLast<S(!new), P(!new), Q, R>(
    cfg: Config<S, P, Q, R>, store: S, x: Request<P, Q>, ms: seq<Request<P, Q>>)
    requires Commutes(cfg)
    ensures ApplyAll(cfg, store, [x] + ms) == ApplyAll(cfg, store, ms + [x])
  {
    if ms == [] {
      assert [x] + ms == ms + [x];
    } else {
      var init, y := ms[..|ms| - 1], ms[|ms| - 1];
      assert ms == init + [y];
      MoveLast(cfg, store, x, init);
      ApplyAllConcat(cfg, store, [x] + init, [y]);
      ApplyAllConcat(cfg, store, init + [x], [y]);
      assert [x] + init + [y] == [x] + ms;
      assert init + [x] + [y] == init + [x, y];
      ApplyAllConcat(cfg, store, init, [x, y]);
      ApplyAllConcat(cfg, store, init, [y, x]);
      assert ms + [x] == init + [y, x];
      Swap(cfg, ApplyAll(cfg, store, init), x, y);
    }
  }

  lemma Swap<S(!new), P(!new), Q, R>(cfg: Config<S, P, Q, R>, store: S, x: Request<P, Q>, y: Request<P, Q>)
    requires Commutes(cfg)
    ensures ApplyAll(cfg, store, [x, y]) == ApplyAll(cfg, store, [y, x])
  {
  }

  /** Any one of the updates may as well come last. */
  lemma MoveOut<S(!new), P(!new), Q, R>(cfg: Config<S, P, Q, R>, store: S, log: seq<Request<P, Q>>, b: seq<nat>, k: nat)
    requires Commutes(cfg)
    requires k < |b| && forall i :: 0 <= i < |b| ==> b[i] < |log|
    ensures var rest := b[..k] + b[k + 1..];
            ApplyAll(cfg, store, At(log, b)) == ApplyAll(cfg, ApplyAll(cfg, store, At(log, rest)), [log[b[k]]])
  {
    var b1, b2, x := At(log, b[..k]), At(log, b[k + 1..]), log[b[k]];
    assert At(log, b) == b1 + ([x] + b2);
    assert At(log, b[..k] + b[k + 1..]) == b1 + b2;
    assert b1 + b2 + [x] == b1 + (b2 + [x]);
    ApplyAllConcat(cfg, store, b1 + b2, [x]);
    ApplyAllConcat(cfg, store, b1, [x] + b2);
    ApplyAllConcat(cfg, store, b1, b2 + [x]);
    MoveLast(cfg, ApplyAll(cfg, store, b1), x, b2);
  }

  lemma EmptyIff(s: seq<nat>)
    ensures s == [] <==> forall x: nat :: x !in s
  {
    assert s != [] ==> s[0] in s;
  }

  /** When updates commute, a store depends only on which pushes it holds, not on
      the order they were taken in. */
  lemma {:induction false} AnyOrder<S(!new), P(!new), Q, R>(
    cfg: Config<S, P, Q, R>, store: S, log: seq<Request<P, Q>>, a: seq<nat>, b: seq<nat>)
    requires Commutes(cfg)
    requires Distinct(a) && Distinct(b)
    requires forall i: nat :: i in a <==> i in b
    requires forall k :: 0 <= k < |a| ==> a[k] < |log|
    requires forall k :: 0 <= k < |b| ==> b[k] < |log|
    ensures ApplyAll(cfg, store, At(log, a)) == ApplyAll(cfg, store, At(log, b))
    decreases |a|
  {
    hide Commutes, ApplyAll, Distinct;
    if a == [] {
      EmptyIff(b);
    } else {
      var last := |a| - 1;
      var x := a[last];
      assert x in a && x in b;
      var k :| 0 <= k < |b| && b[k] == x;
      Removed(a, last);
      Removed(b, k);
      assert a[..last] + a[last + 1..] == a[..last];
      AnyOrder(cfg, store, log, a[..last], b[..k] + b[k + 1..]);
      MoveOut(cfg, store, log, a, last);
      MoveOut(cfg, store, log, b, k);
    }
  }

  lemma Removed(s: seq<nat>, k: nat)
    requires Distinct(s) && k < |s|
    ensures var r := s[..k] + s[k + 1..];
            && Distinct(r)
            && forall x: nat :: x in r <==> x in s && x != s[k]
  {
  }
}
