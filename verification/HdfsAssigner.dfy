// Handing out the blocks of a directory to threads: local blocks first, every block to
// one thread only, however often it is replicated.
module HdfsAssigner {

  type Host = string

  /** A block of a file with the host of one replica. */
  datatype Desc = Desc(file: string, offset: nat, location: Host)

  datatype Block = Block(file: string, offset: nat)

  /** The replicas by host. */
  type Locality = map<Host, set<Desc>>

  /** The task and the directory asked for. */
  type Key = (nat, string)

  datatype LoadType = Unset | Globally | Locally | Unknown

  datatype Answer = Given(block: Block) | Nothing | Refused

  /** How often threads of each host, and threads at all, were sent away. */
  datatype Finish = Finish(hosts: map<Host, nat>, count: nat)

  function BlockOf(d: Desc): Block { Block(d.file, d.offset) }

  function On(l: Locality, host: Host): set<Desc> {
    if host in l then l[host] else {}
  }

  /** Every replica is listed with its own host. */
  ghost predicate Placed(l: Locality) {
    forall h, d :: h in l && d in l[h] ==> d.location == h
  }

  /** What is left: all replicas of the blocks not given, and no others. */
  ghost predicate Remaining(left: Locality, browsed: Locality, given: set<Block>) {
    forall h: Host :: On(left, h) == NotGiven(On(browsed, h), given)
  }

  function NotGiven(s: set<Desc>, given: set<Block>): set<Desc> {
    set d | d in s && BlockOf(d) !in given
  }

  /** Some host has a replica of the block. */
  ghost predicate Exists(l: Locality, b: Block) {
    exists h: Host, d: Desc :: d in On(l, h) && BlockOf(d) == b
  }

  /** Taking all replicas of a block away. */
  function Without(s: set<Desc>, b: Block): set<Desc> {
    set d | d in s && BlockOf(d) != b
  }

  ghost predicate Sound(dict: map<Key, Locality>, finish: map<Key, Finish>, browsed: map<Key, Locality>, given: map<Key, set<Block>>) {
    forall k :: k in dict ==> k in browsed && k in given && k in finish && Placed(browsed[k]) && Remaining(dict[k], browsed[k], given[k])
  }

  /** Nothing happens to other directories. */
  ghost predicate Untouched(k: Key, dict: map<Key, Locality>, given: map<Key, set<Block>>, browsed: map<Key, Locality>,
                            dict': map<Key, Locality>, given': map<Key, set<Block>>, browsed': map<Key, Locality>)
  {
    forall j :: j in dict && j in given && j in browsed && j != k ==>
      j in dict' && j in given' && j in browsed' && dict'[j] == dict[j] && given'[j] == given[j] && browsed'[j] == browsed[j]
  }

  /** What an answer says: a block not given before, with a replica on the host if any
      is left there; nothing only when the host has none left and, unless only local
      blocks were asked for, no other host has. */
  ghost predicate Right(r: Answer, host: Host, loadType: LoadType, left: Locality, given: set<Block>, given': set<Block>) {
    match r
    case Given(b) =>
      && loadType != Unknown && b !in given && given' == given + {b}
      && (if loadType == Locally || On(left, host) != {} then exists d :: d in On(left, host) && BlockOf(d) == b else Exists(left, b))
    case Nothing =>
      && given' == given && loadType != Unknown && On(left, host) == {}
      && (loadType != Locally ==> forall h: Host :: On(left, h) == {})
    case Refused => given' == given && loadType == Unknown
  }

  class HDFSBlockAssigner {
    var filesLocality: map<Key, Locality>
    var finish: map<Key, Finish>
    /** What each directory held when it was browsed, and what was given since. */
    ghost var browsed: map<Key, Locality>
    ghost var given: map<Key, set<Block>>

    ghost predicate Valid()
      reads this
    {
      Sound(filesLocality, finish, browsed, given)
    }

    constructor ()
      ensures Valid() && filesLocality == map[]
    {
      filesLocality, finish, browsed, given := map[], map[], map[], map[];
    }

    /** How often threads were sent away from a directory for good since it was
        browsed. */
    ghost function Refusals(k: Key): nat
      reads this
    {
      if k in filesLocality && k in finish then finish[k].count else 0
    }

    /** The listing of a directory is entered once, until it is dropped. */
    method Browse(k: Key, listing: Locality)
      requires Valid() && Placed(listing)
      modifies this
      ensures Valid() && k in filesLocality
      ensures k in old(filesLocality) ==> filesLocality == old(filesLocality) && browsed == old(browsed) && given == old(given)
      ensures k !in old(filesLocality) ==>
                filesLocality == old(filesLocality)[k := listing] && browsed == old(browsed)[k := listing] && given == old(given)[k := {}]
      ensures k in finish && finish[k].count == (if k in old(filesLocality) && k in old(finish) then old(finish)[k].count else 0)
      ensures Untouched(k, old(filesLocality), old(given), old(browsed), filesLocality, given, browsed)
    {
      hide Sound, Untouched, Placed;
      if k !in filesLocality {
        var before := if k in finish then finish[k].hosts else map[];
        var none := Finish(before + (map h | h in listing && listing[h] != {} :: 0), 0);
        EnterSound(filesLocality, finish, browsed, given, k, listing, none);
        filesLocality := filesLocality[k := listing];
        finish := finish[k := none];
        browsed := browsed[k := listing];
        given := given[k := {}];
      } else {
        BrowsedAndGiven(filesLocality, finish, browsed, given);
        SameUntouched(k, filesLocality, given, browsed);
      }
    }

    /** The request of a thread on the host. The listing is what browsing finds if the
        directory has not been browsed. */
    method Answer(host: Host, k: Key, loadType: LoadType, numWorkers: nat, listing: Locality) returns (r: Answer)
      requires Valid() && Placed(listing)
      modifies this
      ensures Valid() && k in given && k in browsed
      ensures k in old(filesLocality) ==>
                && k in old(given) && k in old(browsed) && browsed[k] == old(browsed)[k]
                && Right(r, host, loadType, old(filesLocality)[k], old(given)[k], given[k])
      ensures k !in old(filesLocality) ==> browsed[k] == listing && Right(r, host, loadType, listing, {}, given[k])
      ensures k !in filesLocality <==> r == Nothing && loadType != Locally && old(Refusals(k)) + 1 == numWorkers
      ensures k in filesLocality ==> Refusals(k) == old(Refusals(k)) + if r == Nothing && loadType != Locally then 1 else 0
      ensures Untouched(k, old(filesLocality), old(given), old(browsed), filesLocality, given, browsed)
    {
      hide Sound, Right, Placed, Untouched;
      BrowsedAndGiven(filesLocality, finish, browsed, given);
      Browse(k, listing);
      ghost var dict, soFar, held := filesLocality, given, browsed;
      r := Serve(host, k, loadType, numWorkers);
      UntouchedThroughout(k, old(filesLocality), old(given), old(browsed), dict, soFar, held, filesLocality, given, browsed);
    }

    method Serve(host: Host, k: Key, loadType: LoadType, numWorkers: nat) returns (r: Answer)
      requires Valid() && k in filesLocality && k in given && k in browsed && k in finish
      modifies this`filesLocality, this`given, this`finish
      ensures Valid() && k in given
      ensures Right(r, host, loadType, old(filesLocality)[k], old(given)[k], given[k])
      ensures k !in filesLocality <==> r == Nothing && loadType != Locally && old(finish)[k].count + 1 == numWorkers
      ensures k in finish && finish[k].count == old(finish)[k].count + if r == Nothing && loadType != Locally then 1 else 0
      ensures Untouched(k, old(filesLocality), old(given), browsed, filesLocality, given, browsed)
    {
      hide Sound, Placed, Remaining, Untouched;
      var selected := host;
      match loadType {
        case Unset | Globally =>
          if On(filesLocality[k], host) == {} {
            var some := Unfinished(filesLocality[k]);
            if some == [] {
              r := Nothing;
              Reject(k, numWorkers);
              return;
            }
            selected := some[0];
          }
        case Locally =>
          if On(filesLocality[k], host) == {} {
            r := Nothing;
            RejectLocal(host, k, numWorkers);
            return;
          }
        case Unknown =>
          SameUntouched(k, filesLocality, given, browsed);
          return Refused;
      }
      var d :| d in On(filesLocality[k], selected);
      assert Exists(filesLocality[k], BlockOf(d));
      NotYetGiven(filesLocality, finish, browsed, given, k, selected, d);
      r := Given(BlockOf(d));
      Remove(k, BlockOf(d));
    }

    /** A host that has blocks left, if there is one. */
    static method Unfinished(l: Locality) returns (r: seq<Host>)
      ensures |r| <= 1
      ensures r == [] ==> forall h: Host :: On(l, h) == {}
      ensures r != [] ==> On(l, r[0]) != {}
    {
      var hosts := set h | h in l && l[h] != {};
      assert forall h: Host :: On(l, h) != {} ==> h in hosts;
      if hosts == {} {
        r := [];
      } else {
        var h :| h in hosts;
        r := [h];
      }
    }

    /** A thread is sent away for good; when all have been, the directory is dropped. */
    method Reject(k: Key, numWorkers: nat)
      requires Valid() && k in filesLocality && k in finish
      modifies this`finish, this`filesLocality
      ensures Valid()
      ensures finish == old(finish)[k := Finish(old(finish)[k].hosts, old(finish)[k].count + 1)]
      ensures filesLocality == if old(finish)[k].count + 1 == numWorkers then old(filesLocality) - {k} else old(filesLocality)
      ensures Untouched(k, old(filesLocality), given, browsed, filesLocality, given, browsed)
    {
      finish := finish[k := finish[k].(count := finish[k].count + 1)];
      if finish[k].count == numWorkers {
        filesLocality := filesLocality - {k};
      }
    }

    /** A thread is sent away from a host; when all have been, the host is dropped. */
    method RejectLocal(host: Host, k: Key, numWorkers: nat)
      requires Valid() && k in filesLocality && k in finish && On(filesLocality[k], host) == {}
      modifies this`finish, this`filesLocality
      ensures Valid() && filesLocality.Keys == old(filesLocality).Keys
      ensures var was := old(finish)[k];
              var times := (if host in was.hosts then was.hosts[host] else 0) + 1;
              && finish == old(finish)[k := Finish(was.hosts[host := times], was.count)]
              && filesLocality == old(filesLocality)[k := if times == numWorkers then old(filesLocality)[k] - {host} else old(filesLocality)[k]]
      ensures Untouched(k, old(filesLocality), given, browsed, filesLocality, given, browsed)
    {
      hide NotGiven;
      var hosts := finish[k].hosts;
      var rejected := (if host in hosts then hosts[host] else 0) + 1;
      finish := finish[k := finish[k].(hosts := hosts[host := rejected])];
      if rejected == numWorkers {
        RemainingSame(filesLocality[k], filesLocality[k] - {host}, host, browsed[k], given[k]);
        filesLocality := filesLocality[k := filesLocality[k] - {host}];
      }
    }

    /** All replicas of a block are removed, one on each host that has one. */
    method Remove(k: Key, b: Block)
      requires Valid() && k in filesLocality && b !in given[k]
      modifies this`filesLocality, this`given
      ensures Valid() && filesLocality.Keys == old(filesLocality).Keys
      ensures given == old(given)[k := old(given)[k] + {b}]
      ensures Untouched(k, old(filesLocality), old(given), browsed, filesLocality, given, browsed)
    {
      LeftIsPlaced(filesLocality[k], browsed[k], given[k]);
      var l := RemoveReplicas(filesLocality[k], b);
      filesLocality := filesLocality[k := l];
      given := given[k := given[k] + {b}];
      RemovedRemains(old(filesLocality)[k], browsed[k], old(given)[k], b, l);
    }

    static method RemoveReplicas(l: Locality, b: Block) returns (r: Locality)
      requires Placed(l)
      ensures r.Keys == l.Keys && forall h :: h in r ==> r[h] == Without(l[h], b)
    {
      r := l;
      var hosts := l.Keys;
      while hosts != {}
        invariant hosts <= l.Keys == r.Keys
        invariant forall h :: h in hosts ==> r[h] == l[h]
        invariant forall h :: h in l.Keys - hosts ==> r[h] == Without(l[h], b)
        decreases |hosts|
      {
        var h :| h in hosts;
        hosts := hosts - {h};
        var replicas := set d | d in r[h] && BlockOf(d) == b;
        assert forall d :: d in l[h] && BlockOf(d) == b ==> d in replicas;
        if replicas != {} {
          var d :| d in replicas;
          OneReplica(l, h, b, d);
          r := r[h := r[h] - {d}];
        } else {
          assert Without(l[h], b) == l[h];
        }
      }
    }
  }

  lemma EnterSound(dict: map<Key, Locality>, finish: map<Key, Finish>, browsed: map<Key, Locality>, given: map<Key, set<Block>>, k: Key, listing: Locality, f: Finish)
    requires Sound(dict, finish, browsed, given) && Placed(listing) && k !in dict
    ensures Sound(dict[k := listing], finish[k := f], browsed[k := listing], given[k := {}])
    ensures Untouched(k, dict, given, browsed, dict[k := listing], given[k := {}], browsed[k := listing])
  {
    forall h: Host ensures On(listing, h) == NotGiven(On(listing, h), {}) {}
  }

  lemma SameUntouched(k: Key, dict: map<Key, Locality>, given: map<Key, set<Block>>, browsed: map<Key, Locality>)
    ensures Untouched(k, dict, given, browsed, dict, given, browsed)
  {
  }

  lemma UntouchedThroughout(k: Key, d0: map<Key, Locality>, g0: map<Key, set<Block>>, b0: map<Key, Locality>,
                            d1: map<Key, Locality>, g1: map<Key, set<Block>>, b1: map<Key, Locality>,
                            d2: map<Key, Locality>, g2: map<Key, set<Block>>, b2: map<Key, Locality>)
    requires Untouched(k, d0, g0, b0, d1, g1, b1) && Untouched(k, d1, g1, b1, d2, g2, b2)
    ensures Untouched(k, d0, g0, b0, d2, g2, b2)
  {
  }

  lemma BrowsedAndGiven(dict: map<Key, Locality>, finish: map<Key, Finish>, browsed: map<Key, Locality>, given: map<Key, set<Block>>)
    requires Sound(dict, finish, browsed, given)
    ensures forall k :: k in dict ==> k in browsed && k in given && k in finish
  {
  }

  lemma NotYetGiven(dict: map<Key, Locality>, finish: map<Key, Finish>, browsed: map<Key, Locality>, given: map<Key, set<Block>>, k: Key, h: Host, d: Desc)
    requires Sound(dict, finish, browsed, given) && k in dict && d in On(dict[k], h)
    ensures k in given && BlockOf(d) !in given[k]
  {
  }

  lemma RemainingSame(left: Locality, left': Locality, host: Host, browsed: Locality, given: set<Block>)
    requires Remaining(left, browsed, given) && left' == left - {host} && On(left, host) == {}
    ensures Remaining(left', browsed, given)
  {
  }

  /** A host lists a block at most once. */
  lemma OneReplica(l: Locality, h: Host, b: Block, d: Desc)
    requires Placed(l) && h in l && d in l[h] && BlockOf(d) == b
    ensures l[h] - {d} == Without(l[h], b)
  {
  }

  lemma LeftIsPlaced(left: Locality, browsed: Locality, given: set<Block>)
    requires Remaining(left, browsed, given) && Placed(browsed)
    ensures Placed(left)
  {
    forall h, d | h in left && d in left[h] ensures d.location == h {
      assert On(left, h) == NotGiven(On(browsed, h), given);
      assert d in On(left, h);
    }
  }

  lemma RemovedRemains(left: Locality, browsed: Locality, given: set<Block>, b: Block, left': Locality)
    requires Remaining(left, browsed, given)
    requires left'.Keys == left.Keys && forall h :: h in left' ==> left'[h] == Without(left[h], b)
    ensures Remaining(left', browsed, given + {b})
  {
  }

  /** Once a directory has nothing left, every block it held has been given. */
  lemma NothingLeft(left: Locality, browsed: Locality, given: set<Block>, b: Block)
    requires Remaining(left, browsed, given) && forall h: Host :: On(left, h) == {}
    requires Exists(browsed, b)
    ensures b in given
  {
    var h: Host, d: Desc :| d in On(browsed, h) && BlockOf(d) == b;
    assert On(left, h) == NotGiven(On(browsed, h), given);
    assert d in NotGiven(On(browsed, h), given) <==> b !in given;
  }

  /** A block that is left keeps all the replicas it had. */
  lemma ReplicasKept(left: Locality, browsed: Locality, given: set<Block>, b: Block, h: Host)
    requires Remaining(left, browsed, given) && Exists(left, b)
    ensures forall d :: d in On(browsed, h) && BlockOf(d) == b ==> d in On(left, h)
  {
  }
}
