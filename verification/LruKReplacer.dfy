/** The LRU-K replacer: which unpinned frame the buffer pool gives up. */
module LruKReplacer {
  import opened Options

  const NUM_FRAMES: nat := 1024
  const K: nat := 2

  // ---- Bounded histories ----

  /** Appending to a deque of at most K timestamps drops the oldest. */
  function Push(queue: seq<int>, time: int): seq<int> {
    (if |queue| < K then queue else queue[1..]) + [time]
  }

  /** The last K accesses of a full access log. */
  function LastK(log: seq<int>): seq<int> {
    if |log| <= K then log else log[|log| - K..]
  }

  /** The bounded deque always holds exactly what LRU-K needs of the whole log. */
  lemma PushKeepsLastK(log: seq<int>, time: int)
    ensures LastK(log + [time]) == Push(LastK(log), time)
  {
  }

  // ---- The victim, by whole logs and by bounded histories ----

  ghost predicate Increasing(log: seq<int>) {
    forall i, j :: 0 <= i < j < |log| ==> log[i] < log[j]
  }

  /**
   LRU-K order on access logs at time `now`: a log with fewer than K accesses has infinite backward K-distance and
   goes first; among those the earliest first access goes first; otherwise the larger distance to
   the K-th most recent access goes first.
   */
  predicate Sooner(a: seq<int>, b: seq<int>, now: int)
    requires a != [] && b != []
  {
    if |a| < K then |b| >= K || a[0] < b[0]
    else |b| >= K && now - a[|a| - K] > now - b[|b| - K]
  }

  /** The same choice as the replacer makes it, looking only at the head of each bounded queue. */
  predicate Beats(q: seq<int>, r: seq<int>)
    requires q != [] && r != []
  {
    if |q| < K then |r| >= K || q[0] < r[0] else |r| >= K && q[0] < r[0]
  }

  /** The bounded queues order frames exactly as the whole logs do. */
  lemma QueuesDecide(a: seq<int>, b: seq<int>, now: int)
    requires a != [] && b != []
    ensures Beats(LastK(a), LastK(b)) <==> Sooner(a, b, now)
  {
  }

  /** With K = 2: a frame used once goes before one used more, the earlier of two; else by the last use but one. */
  lemma SecondLastDecides(a: seq<int>, b: seq<int>, now: int)
    requires a != [] && b != []
    ensures |a| == 1 && |b| == 1 ==> (Sooner(a, b, now) <==> a[0] < b[0])
    ensures |a| == 1 && |b| > 1 ==> Sooner(a, b, now)
    ensures |a| > 1 && |b| == 1 ==> !Sooner(a, b, now)
    ensures |a| > 1 && |b| > 1 ==> (Sooner(a, b, now) <==> a[|a| - 2] < b[|b| - 2])
  {
  }

  /** Access times within a log increase, precede `now`, and are never shared by two frames. */
  ghost predicate LogsOk(logs: seq<seq<int>>, now: int) {
    && (forall f :: 0 <= f < |logs| ==> Increasing(logs[f]))
    && (forall f, i :: 0 <= f < |logs| && 0 <= i < |logs[f]| ==> logs[f][i] < now)
    && (forall f, g :: 0 <= f < |logs| && 0 <= g < |logs| && f != g ==> Disjoint(logs[f], logs[g]))
  }

  ghost predicate Disjoint(a: seq<int>, b: seq<int>) {
    forall i, j :: 0 <= i < |a| && 0 <= j < |b| ==> a[i] != b[j]
  }

  lemma PushLog(logs: seq<seq<int>>, now: int, f: nat)
    requires LogsOk(logs, now) && f < |logs|
    ensures LogsOk(logs[f := logs[f] + [now]], now + 1)
  {
    var logs' := logs[f := logs[f] + [now]];
    forall g, h | 0 <= g < |logs| && 0 <= h < |logs| && g != h
      ensures Disjoint(logs'[g], logs'[h])
    {
      assert Disjoint(logs[g], logs[h]);
    }
  }

  lemma DropLog(logs: seq<seq<int>>, now: int, f: nat)
    requires LogsOk(logs, now) && f < |logs|
    ensures LogsOk(logs[f := []], now)
  {
    var logs' := logs[f := []];
    forall g, h | 0 <= g < |logs| && 0 <= h < |logs| && g != h
      ensures Disjoint(logs'[g], logs'[h])
    {
      assert Disjoint(logs[g], logs[h]);
    }
  }

  /** Two frames never tie: there is always exactly one victim. */
  lemma NoTies(logs: seq<seq<int>>, now: int, f: nat, g: nat)
    requires LogsOk(logs, now) && f < |logs| && g < |logs| && f != g && logs[f] != [] && logs[g] != []
    ensures LastK(logs[f])[0] != LastK(logs[g])[0]
    ensures Sooner(logs[f], logs[g], now) <==> !Sooner(logs[g], logs[f], now)
  {
    var a, b := logs[f], logs[g];
    assert Disjoint(a, b);
    assert LastK(a)[0] == a[if |a| <= K then 0 else |a| - K];
    assert LastK(b)[0] == b[if |b| <= K then 0 else |b| - K];
  }

  lemma SomeFrame(frames: set<int>)
    requires frames != {}
    ensures exists f :: f in frames
  {
    assert (forall f :: f !in frames) ==> frames == {};
  }

  class Replacer {
    var history: seq<seq<int>>
    var evictable: set<int>
    var currentTime: int
    // every access to each frame since it was last evicted
    ghost var logs: seq<seq<int>>

    ghost predicate Valid()
      reads this
    {
      && |history| == |logs| == NUM_FRAMES
      && (forall f :: 0 <= f < NUM_FRAMES ==> history[f] == LastK(logs[f]))
      && LogsOk(logs, currentTime)
      && (forall f :: f in evictable ==> 0 <= f < NUM_FRAMES)
    }

    constructor ()
      ensures Valid()
      ensures logs == seq(NUM_FRAMES, _ => []) && evictable == {} && currentTime == 0
    {
      history := seq(NUM_FRAMES, _ => []);
      logs := seq(NUM_FRAMES, _ => []);
      evictable := {};
      currentTime := 0;
    }

    method RecordAccess(frame: int)
      requires Valid() && 0 <= frame < NUM_FRAMES
      modifies this
      ensures Valid()
      ensures logs == old(logs)[frame := old(logs)[frame] + [old(currentTime)]]
      ensures evictable == old(evictable) && currentTime == old(currentTime) + 1
    {
      PushKeepsLastK(logs[frame], currentTime);
      PushLog(logs, currentTime, frame);
      history := history[frame := Push(history[frame], currentTime)];
      logs := logs[frame := logs[frame] + [currentTime]];
      currentTime := currentTime + 1;
    }

    method SetEvictable(frame: int, isEvictable: bool)
      requires Valid() && 0 <= frame < NUM_FRAMES
      modifies this`evictable
      ensures Valid()
      ensures evictable == if isEvictable then old(evictable) + {frame} else old(evictable) - {frame}
    {
      if isEvictable {
        evictable := evictable + {frame};
      } else {
        evictable := evictable - {frame};
      }
    }

    /**
     Gives up the one evictable frame that comes before all others in LRU-K order. The head of each
     evictable frame's queue is read, so none may be empty.
     */
    method Evict() returns (victim: Option<int>)
      requires Valid()
      requires forall f :: f in evictable ==> logs[f] != []
      modifies this
      ensures Valid()
      ensures victim.None? <==> old(evictable) == {}
      ensures victim.None? ==> evictable == old(evictable) && logs == old(logs)
      ensures victim.Some? ==> victim.value in old(evictable)
      ensures victim.Some? ==> forall g :: g in old(evictable) && g != victim.value ==>
        Sooner(old(logs)[victim.value], old(logs)[g], old(currentTime))
      ensures victim.Some? ==> evictable == old(evictable) - {victim.value}
      ensures victim.Some? ==> logs == old(logs)[victim.value := []]
      ensures currentTime == old(currentTime)
    {
      hide Sooner, LogsOk;
      if evictable == {} {
        return None;
      }
      var evictId := 0;
      var lastUse: Option<int> := None; // None stands for infinity
      var foundInf := false;
      var todo := evictable;
      while todo != {}
        invariant Valid() && unchanged(this)
        invariant todo <= evictable
        invariant lastUse.None? ==> todo == evictable && !foundInf
        invariant lastUse.Some? ==> evictId in evictable && evictId !in todo
        invariant lastUse.Some? ==> history[evictId] != [] && lastUse.value == history[evictId][0]
        invariant lastUse.Some? ==> (foundInf <==> |history[evictId]| < K)
        invariant lastUse.Some? ==> forall g :: g in evictable && g !in todo && g != evictId ==>
          history[g] != [] && Beats(history[evictId], history[g])
        decreases |todo|
      {
        SomeFrame(todo);
        var frame :| frame in todo;
        assert frame in evictable && logs[frame] != [];
        todo := todo - {frame};
        var queue := history[frame];
        if lastUse.Some? {
          NoTies(logs, currentTime, frame, evictId);
        }
        if |queue| < K {
          if !foundInf || (lastUse.Some? && queue[0] < lastUse.value) {
            foundInf := true;
            lastUse := Some(queue[0]);
            evictId := frame;
          }
        } else if !foundInf {
          if lastUse.None? || queue[0] < lastUse.value {
            lastUse := Some(queue[0]);
            evictId := frame;
          }
        }
      }
      forall g | g in evictable && g != evictId
        ensures Sooner(logs[evictId], logs[g], currentTime)
      {
        QueuesDecide(logs[evictId], logs[g], currentTime);
      }
      DropLog(logs, currentTime, evictId);
      evictable := evictable - {evictId};
      history := history[evictId := []];
      logs := logs[evictId := []];
      victim := Some(evictId);
    }
  }
}
