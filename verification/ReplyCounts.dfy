// How many replies the servers of a store send to one request of a client, which is
// what the client waits for.
module ReplyCounts {
  import opened ServerLog
  import opened Exactness

  /** A server's configuration, what it has received, and its clock at each step. */
  datatype Server<!S, !P, !Q, !R> = Server(cfg: Config<S, P, Q, R>, log: seq<Request<P, Q>>, clocks: seq<nat>)

  /** The client's part of request number ts at position i of a server's log. */
  predicate Carries<P, Q>(m: Request<P, Q>, client: nat, ts: int) {
    m.src == client && m.ts == ts && HasData(m)
  }

  ghost predicate Received<S, P, Q, R>(s: Server<S, P, Q, R>, client: nat, ts: int) {
    exists i :: 0 <= i < |s.log| && Carries(s.log[i], client, ts)
  }

  /** A client sends a server at most one part of a request. */
  ghost predicate SentOnce<S, P, Q, R>(s: Server<S, P, Q, R>, client: nat, ts: int) {
    |s.clocks| == |s.log| &&
    forall i, j :: 0 <= i < j < |s.log| ==> !(Carries(s.log[i], client, ts) && Carries(s.log[j], client, ts))
  }

  /** Every part of the request that has been received is ready. */
  ghost predicate AllReady<S, P, Q, R>(s: Server<S, P, Q, R>, client: nat, ts: int) {
    forall i :: 0 <= i < |s.log| && Carries(s.log[i], client, ts) ==> Ready(s.cfg.proto, s.cfg.workers, s.log, i)
  }

  ghost function RepliesTo<S, P, Q, R>(s: Server<S, P, Q, R>, client: nat, ts: int): nat
    requires |s.clocks| == |s.log|
  {
    var replies := AllReplies(s.cfg, s.log, s.clocks);
    |set k | 0 <= k < |replies| && replies[k].src == client && replies[k].ts == ts|
  }

  lemma RepliesOfServer<S, P, Q, R>(s: Server<S, P, Q, R>, client: nat, ts: int)
    requires SentOnce(s, client, ts)
    ensures RepliesTo(s, client, ts) == if Received(s, client, ts) && AllReady(s, client, ts) then 1 else 0
  {
    hide Ready, AllReplies;
    if Received(s, client, ts) {
      var i :| 0 <= i < |s.log| && Carries(s.log[i], client, ts);
      forall j | 0 <= j < |s.log| && j != i && HasData(s.log[j]) ensures s.log[j].src != s.log[i].src || s.log[j].ts != s.log[i].ts {
        assert Carries(s.log[i], client, ts);
        assert Carries(s.log[j], client, ts) <==> s.log[j].src == s.log[i].src && s.log[j].ts == s.log[i].ts;
      }
      OneReplyEach(s.cfg, s.log, s.clocks, i);
    } else {
      NoReply(s, client, ts);
    }
  }

  lemma NoReply<S, P, Q, R>(s: Server<S, P, Q, R>, client: nat, ts: int)
    requires SentOnce(s, client, ts) && !Received(s, client, ts)
    ensures RepliesTo(s, client, ts) == 0
  {
    AllRepliesMatch(s.cfg, s.log, s.clocks);
    AnsweredExactlyOnce(s.cfg.proto, s.cfg.workers, s.log);
    hide Answered, AllReplies, Ready, HasData;
    var who, replies := Answered(s.cfg.proto, s.cfg.workers, s.log), AllReplies(s.cfg, s.log, s.clocks);
    forall k | 0 <= k < |replies| ensures !(replies[k].src == client && replies[k].ts == ts) {
      assert who[k] in who;
      assert !Carries(s.log[who[k]], client, ts);
    }
    assert (set k | 0 <= k < |replies| && replies[k].src == client && replies[k].ts == ts) == {};
  }

  ghost function TotalReplies<S, P, Q, R>(servers: seq<Server<S, P, Q, R>>, client: nat, ts: int): nat
    requires forall i :: 0 <= i < |servers| ==> SentOnce(servers[i], client, ts)
  {
    if servers == [] then 0
    else
      var n := |servers| - 1;
      assert SentOnce(servers[n], client, ts);
      TotalReplies(servers[..n], client, ts) + RepliesTo(servers[n], client, ts)
  }

  /** The servers that got a part of the request, which is how many replies the client
      waits for. */
  ghost function Expected<S, P, Q, R>(servers: seq<Server<S, P, Q, R>>, client: nat, ts: int): set<nat> {
    set i: nat | i < |servers| && Received(servers[i], client, ts)
  }

  /** All servers together never send more replies with the client's request number
      than it waits for, and exactly as many once every part is ready. */
  lemma {:induction false} NeverTooMany<S, P, Q, R>(servers: seq<Server<S, P, Q, R>>, client: nat, ts: int)
    requires forall i :: 0 <= i < |servers| ==> SentOnce(servers[i], client, ts)
    ensures TotalReplies(servers, client, ts) <= |Expected(servers, client, ts)|
    ensures TotalReplies(servers, client, ts) == |Expected(servers, client, ts)| <==>
            forall i :: 0 <= i < |servers| ==> AllReady(servers[i], client, ts)
  {
    hide SentOnce, RepliesTo, AllReady, Received;
    if servers == [] {
      assert Expected(servers, client, ts) == {};
    } else {
      var n := |servers| - 1;
      NeverTooMany(servers[..n], client, ts);
      RepliesOfServer(servers[n], client, ts);
      NotReceivedIsReady(servers[n], client, ts);
      if Received(servers[n], client, ts) {
        assert Expected(servers, client, ts) == Expected(servers[..n], client, ts) + {n};
      } else {
        assert Expected(servers, client, ts) == Expected(servers[..n], client, ts);
      }
    }
  }

  lemma NotReceivedIsReady<S, P, Q, R>(s: Server<S, P, Q, R>, client: nat, ts: int)
    ensures !Received(s, client, ts) ==> AllReady(s, client, ts)
  {
  }
}
