/**
 * The part of Redis the deployer talks to over its connection: sorted sets (ZRANGEBYSCORE,
 * ZREM) and hashes (HEXISTS, HGET). Connection failures are an oracle, `faults`, naming
 * the commands that fail and the error each one returns; other consumers of the same
 * queue are the set `contenders`, the members they claim before this connection's ZREM.
 */
module Redis {
  import opened Wrappers

  newtype byte = b: int | 0 <= b < 256

  type Bytes = seq<byte>

  /** A member of a sorted set with its score (a Unix time for the deploy queue). */
  datatype Entry = Entry(member: string, score: int)

  /** The commands the deployer sends, with their arguments. */
  datatype Command =
    | ZRangeByScore(key: string, min: int, max: int)
    | ZRem(key: string, member: string)
    | HExists(key: string, field: string)
    | HGet(key: string, field: string)

  /** Scores ascend along the sequence and no member appears twice. */
  ghost predicate IsSortedSet(s: seq<Entry>)
  {
    forall i, j :: 0 <= i < j < |s| ==> s[i].score <= s[j].score && s[i].member != s[j].member
  }

  function Members(s: seq<Entry>): set<string>
  {
    set e | e in s :: e.member
  }

  /** ZRANGEBYSCORE: the members scored within `[min, max]`, in the set's order. */
  function RangeByScore(s: seq<Entry>, min: int, max: int): (r: seq<string>)
    ensures |r| <= |s|
    ensures forall m :: m in r <==> exists e :: e in s && e.member == m && min <= e.score <= max
  {
    if s == [] then []
    else if min <= s[0].score <= max then [s[0].member] + RangeByScore(s[1..], min, max)
    else RangeByScore(s[1..], min, max)
  }

  /**
   * The first member ZRANGEBYSCORE returns from a sorted set has a score within the range,
   * and no member scored within the range has a lower score.
   */
  lemma {:induction false} FirstInRangeIsEarliest(s: seq<Entry>, min: int, max: int)
    requires IsSortedSet(s) && RangeByScore(s, min, max) != []
    ensures exists e :: e in s && e.member == RangeByScore(s, min, max)[0] && min <= e.score <= max &&
                        forall f :: f in s && min <= f.score <= max ==> e.score <= f.score
  {
    if min <= s[0].score <= max {
      assert forall f :: f in s ==> s[0].score <= f.score by {
        forall f | f in s ensures s[0].score <= f.score {
          var k :| 0 <= k < |s| && s[k] == f;
          if k > 0 { assert s[0].score <= s[k].score; }
        }
      }
    } else {
      assert IsSortedSet(s[1..]);
      FirstInRangeIsEarliest(s[1..], min, max);
      var e :| e in s[1..] && e.member == RangeByScore(s[1..], min, max)[0] && min <= e.score <= max &&
               forall f :: f in s[1..] && min <= f.score <= max ==> e.score <= f.score;
      assert s == [s[0]] + s[1..];
      assert e in s;
    }
  }

  /** ZREM's effect on a sorted set: every entry of `member` goes, the rest stay in order. */
  function Remove(s: seq<Entry>, member: string): (r: seq<Entry>)
    ensures forall e :: e in r <==> e in s && e.member != member
    ensures |r| <= |s|
  {
    if s == [] then []
    else if s[0].member == member then Remove(s[1..], member)
    else [s[0]] + Remove(s[1..], member)
  }

  /** In a sorted set, the first entry scores no higher than, and differs in member from, every later one. */
  lemma HeadBeforeRest(s: seq<Entry>)
    requires IsSortedSet(s) && s != []
    ensures IsSortedSet(s[1..])
    ensures forall e | e in s[1..] :: s[0].score <= e.score && s[0].member != e.member
  {
    forall e | e in s[1..] ensures s[0].score <= e.score && s[0].member != e.member {
      var k :| 0 <= k < |s[1..]| && s[1..][k] == e;
      assert s[k + 1] == e;
    }
  }

  /** An entry placed before a sorted set, scoring no higher than its entries and sharing no member, keeps it sorted. */
  lemma ConsSorted(head: Entry, tail: seq<Entry>)
    requires IsSortedSet(tail)
    requires forall e | e in tail :: head.score <= e.score && head.member != e.member
    ensures IsSortedSet([head] + tail)
  {
    var r := [head] + tail;
    forall i, j | 0 <= i < j < |r|
      ensures r[i].score <= r[j].score && r[i].member != r[j].member
    {
      assert r[j] == tail[j - 1];
      if i == 0 {
        assert tail[j - 1] in tail;
      } else {
        assert r[i] == tail[i - 1];
      }
    }
  }

  /** Removing a member keeps a sorted set sorted. */
  lemma {:induction false} RemoveKeepsSortedSet(s: seq<Entry>, member: string)
    requires IsSortedSet(s)
    ensures IsSortedSet(Remove(s, member))
  {
    if s != [] {
      HeadBeforeRest(s);
      RemoveKeepsSortedSet(s[1..], member);
      if s[0].member != member {
        var tail := Remove(s[1..], member);
        assert Remove(s, member) == [s[0]] + tail;
        ConsSorted(s[0], tail);
      }
    }
  }

  /** In a sorted set, ZREM removes exactly one entry when the member is there and none otherwise. */
  lemma {:induction false} RemoveCount(s: seq<Entry>, member: string)
    requires IsSortedSet(s)
    ensures |Remove(s, member)| == if member in Members(s) then |s| - 1 else |s|
  {
    if s != [] {
      HeadBeforeRest(s);
      RemoveCount(s[1..], member);
      assert s == [s[0]] + s[1..];
      assert Members(s) == {s[0].member} + Members(s[1..]);
    }
  }

  /** ZREM's effect on the sorted sets: the set at `key`, if there is one, loses `member`. */
  function AfterZRem(zsets: map<string, seq<Entry>>, key: string, member: string): (r: map<string, seq<Entry>>)
    ensures r.Keys == zsets.Keys
    ensures forall k | k in zsets && k != key :: r[k] == zsets[k]
    ensures key in zsets ==> forall e :: e in r[key] <==> e in zsets[key] && e.member != member
  {
    if key in zsets then zsets[key := Remove(zsets[key], member)] else zsets
  }

  /** ZREM of a member the set holds takes exactly that member out and shrinks the set by one. */
  lemma AfterZRemMembers(zsets: map<string, seq<Entry>>, key: string, member: string)
    requires key in zsets && IsSortedSet(zsets[key]) && member in Members(zsets[key])
    ensures key in AfterZRem(zsets, key, member)
    ensures Members(AfterZRem(zsets, key, member)[key]) == Members(zsets[key]) - {member}
    ensures |AfterZRem(zsets, key, member)[key]| == |zsets[key]| - 1
  {
    var after := AfterZRem(zsets, key, member)[key];
    RemoveCount(zsets[key], member);
    forall m ensures m in Members(after) <==> m in Members(zsets[key]) - {member} {
      if m in Members(after) {
        var f: Entry :| f in after && f.member == m;
        assert f in zsets[key];
      }
      if m in Members(zsets[key]) - {member} {
        var f: Entry :| f in zsets[key] && f.member == m;
        assert f in after;
      }
    }
  }

  /** The contents of a Redis server and its fault and contention oracles, as a value. */
  datatype Snapshot = Snapshot(
    zsets: map<string, seq<Entry>>,
    hashes: map<string, map<string, Bytes>>,
    faults: map<Command, string>,
    contenders: set<string>)
  {
    /** The sorted set at `key`; a missing key reads as the empty set. */
    function SortedSet(key: string): seq<Entry>
    {
      if key in zsets then zsets[key] else []
    }

    /** What HGET key field reads: the bytes, or nil (`None`). */
    function Field(key: string, field: string): Option<Bytes>
    {
      if key in hashes && field in hashes[key] then Some(hashes[key][field]) else None
    }

    /** What ZREM key member replies: 1 when it removed the member, 0 when it was already gone. */
    function ZRemReply(key: string, member: string): nat
    {
      if member in Members(SortedSet(key)) && member !in contenders then 1 else 0
    }
  }

  /** A Redis server as one connection sees it. */
  class Store {
    /** The sorted sets, by key. */
    var zsets: map<string, seq<Entry>>
    /** The hashes, by key: each maps its fields to their bytes. */
    var hashes: map<string, map<string, Bytes>>
    /** The commands that fail on this connection, with the error each one returns. */
    var faults: map<Command, string>
    /** Members another consumer removes just before this connection's next ZREM of them. */
    var contenders: set<string>

    ghost predicate Valid()
      reads this
    {
      forall key | key in zsets :: IsSortedSet(zsets[key])
    }

    /** A server holding `zsets` and `hashes`, with its fault and contention oracles. */
    constructor (zsets: map<string, seq<Entry>>, hashes: map<string, map<string, Bytes>>,
                 faults: map<Command, string>, contenders: set<string>)
      requires forall key | key in zsets :: IsSortedSet(zsets[key])
      ensures Valid()
      ensures State() == Snapshot(zsets, hashes, faults, contenders)
    {
      this.zsets := zsets;
      this.hashes := hashes;
      this.faults := faults;
      this.contenders := contenders;
    }

    function State(): Snapshot
      reads this
    {
      Snapshot(zsets, hashes, faults, contenders)
    }

    /** The sorted set at `key`; a missing key reads as the empty set. */
    function SortedSet(key: string): seq<Entry>
      reads this
    {
      State().SortedSet(key)
    }

    /** ZRANGEBYSCORE key min max: the members scored within `[min, max]`, lowest score first. */
    method ZRangeByScore(key: string, min: int, max: int) returns (r: Result<seq<string>, string>)
      ensures Command.ZRangeByScore(key, min, max) in faults ==>
                r == Failure(faults[Command.ZRangeByScore(key, min, max)])
      ensures Command.ZRangeByScore(key, min, max) !in faults ==> r == Success(RangeByScore(SortedSet(key), min, max))
    {
      var cmd := Command.ZRangeByScore(key, min, max);
      if cmd in faults {
        return Failure(faults[cmd]);
      }
      return Success(RangeByScore(SortedSet(key), min, max));
    }

    /**
     * ZREM key member: removes the member and replies how many entries went (0 or 1).
     * A member a contender claimed first is gone already, so the reply is 0.
     */
    method ZRem(key: string, member: string) returns (r: Result<nat, string>)
      requires Valid()
      modifies this
      ensures Valid()
      ensures hashes == old(hashes) && faults == old(faults) && contenders == old(contenders)
      ensures Command.ZRem(key, member) in faults ==>
                r == Failure(faults[Command.ZRem(key, member)]) && zsets == old(zsets)
      ensures Command.ZRem(key, member) !in faults ==>
                && r == Success(old(State()).ZRemReply(key, member))
                && zsets == AfterZRem(old(zsets), key, member)
    {
      var cmd := Command.ZRem(key, member);
      if cmd in faults {
        return Failure(faults[cmd]);
      }
      var removed := State().ZRemReply(key, member);
      if key in zsets {
        RemoveKeepsSortedSet(zsets[key], member);
        zsets := zsets[key := Remove(zsets[key], member)];
      }
      return Success(removed);
    }

    /** HEXISTS key field: 1 when the hash at `key` has `field`, else 0. */
    method HExists(key: string, field: string) returns (r: Result<nat, string>)
      ensures Command.HExists(key, field) in faults ==> r == Failure(faults[Command.HExists(key, field)])
      ensures Command.HExists(key, field) !in faults ==>
                && r.Success?
                && (r.value != 0 <==> key in hashes && field in hashes[key])
                && r.value <= 1
    {
      var cmd := Command.HExists(key, field);
      if cmd in faults {
        return Failure(faults[cmd]);
      }
      return Success(if key in hashes && field in hashes[key] then 1 else 0);
    }

    /** HGET key field: the field's bytes, or nil (`None`) when the hash or the field is missing. */
    method HGet(key: string, field: string) returns (r: Result<Option<Bytes>, string>)
      ensures Command.HGet(key, field) in faults ==> r == Failure(faults[Command.HGet(key, field)])
      ensures Command.HGet(key, field) !in faults ==> r == Success(State().Field(key, field))
    {
      var cmd := Command.HGet(key, field);
      if cmd in faults {
        return Failure(faults[cmd]);
      }
      if key in hashes && field in hashes[key] {
        return Success(Some(hashes[key][field]));
      }
      return Success(None);
    }
  }
}
