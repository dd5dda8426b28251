/** The ublk ID allocator: one call returns the first free ID in cyclic order, and over any
    run of calls the IDs are handed out round robin. */
module UblkIdGenerator {
  import opened MachineInt
  import opened Wrappers

  const MAX_UBLK_ID: int := 65535

  datatype UblkDevice = UblkDevice(id: int32, bdevName: string)

  /** Steps from one ID to another around the 16-bit circle. */
  function Distance(from: int, to: int): int {
    (to - from) % 65536
  }

  predicate Free(id: int, inUse: set<int>) {
    1 <= id <= MAX_UBLK_ID && id !in inUse
  }

  /** A free ID other than the last one that no other such ID precedes after `last`. */
  ghost predicate IsNext(last: int, inUse: set<int>, id: int) {
    && Free(id, inUse)
    && id != last
    && forall y: int :: Free(y, inUse) && y != last ==> Distance(last, id) <= Distance(last, y)
  }

  ghost predicate Exhausted(last: int, inUse: set<int>) {
    forall id: int :: 1 <= id <= MAX_UBLK_ID && id != last ==> id in inUse
  }

  lemma {:induction false} NextExists(last: int, inUse: set<int>, best: int)
    requires 0 <= last <= MAX_UBLK_ID
    requires Free(best, inUse) && best != last
    ensures exists id: int :: IsNext(last, inUse, id)
    decreases Distance(last, best)
  {
    if !IsNext(last, inUse, best) {
      var y: int :| Free(y, inUse) && y != last && Distance(last, y) < Distance(last, best);
      NextExists(last, inUse, y);
    }
  }

  /** What one call must return: the cyclically next free ID, or nothing exactly when every
      ID other than the last one issued is in use (every ID, when none was issued yet). */
  ghost function NextId(last: int, inUse: set<int>): (r: Option<int>)
    requires 0 <= last <= MAX_UBLK_ID
    ensures r.None? <==> Exhausted(last, inUse)
    ensures r.Some? ==> IsNext(last, inUse, r.value)
  {
    if Exhausted(last, inUse) then None
    else
      var best: int :| 1 <= best <= MAX_UBLK_ID && best != last && best !in inUse;
      NextExists(last, inUse, best);
      var id: int :| IsNext(last, inUse, id);
      Some(id)
  }

  lemma NextIsUnique(last: int, inUse: set<int>, a: int, b: int)
    requires 0 <= last <= MAX_UBLK_ID
    requires IsNext(last, inUse, a) && IsNext(last, inUse, b)
    ensures a == b
  {
    assert Distance(last, a) == Distance(last, b);
  }

  /** The error does not mean that every ID is in use: a call fails on a list that holds all
      IDs but the one issued last, although that one is free. */
  lemma FailsWithLastFree(last: int, inUse: set<int>)
    requires 1 <= last <= MAX_UBLK_ID
    requires forall id: int :: id in inUse <==> 1 <= id <= MAX_UBLK_ID && id != last
    ensures NextId(last, inUse).None? && Free(last, inUse)
  {
    assert Exhausted(last, inUse);
  }

  function InUse(devices: seq<UblkDevice>): set<int> {
    set d | d in devices :: d.id
  }

  lemma ListedIsInUse(devices: seq<UblkDevice>, id: int)
    ensures id in InUse(devices) <==> exists i :: 0 <= i < |devices| && devices[i].id == id
  {
    if id in InUse(devices) {
      var d :| d in devices && d.id == id;
    }
  }

  /** A call fails exactly when every ID from 1 to 65535 but the last one is in the list. */
  lemma FailsIffOthersListed(last: int, devices: seq<UblkDevice>)
    requires 0 <= last <= MAX_UBLK_ID
    ensures NextId(last, InUse(devices)).None? <==>
              forall id: int :: 1 <= id <= 65535 && id != last ==> Listed(devices, id)
  {
    forall id: int
      ensures id in InUse(devices) <==> Listed(devices, id)
    {
      ListedIsInUse(devices, id);
    }
    hide InUse, Listed, IsNext;
  }

  predicate Listed(devices: seq<UblkDevice>, id: int) {
    exists i :: 0 <= i < |devices| && devices[i].id == id
  }

  class IDGenerator {
    var lastCandidate: int32

    predicate Valid()
      reads this
    {
      0 <= lastCandidate <= MAX_UBLK_ID
    }

    constructor ()
      ensures Valid() && lastCandidate == 0
    {
      lastCandidate := 0;
    }

    method GetAvailableID(devices: seq<UblkDevice>) returns (r: Option<int>)
      requires Valid()
      modifies this
      ensures Valid()
      ensures r == NextId(old(lastCandidate), InUse(devices))
      ensures r.Some? ==> 1 <= r.value <= 65535 && forall i :: 0 <= i < |devices| ==> devices[i].id != r.value
      ensures lastCandidate == if r.Some? then r.value else old(lastCandidate)
    {
      var used: set<int> := {};
      for n := 0 to |devices|
        invariant used == InUse(devices[..n])
      {
        assert devices[..n + 1] == devices[..n] + [devices[n]];
        used := used + {devices[n].id};
      }
      assert devices[..|devices|] == devices;

      var i: int32 := 1;
      while i <= MAX_UBLK_ID
        invariant 1 <= i <= MAX_UBLK_ID + 1
        invariant forall y: int :: Free(y, used) && y != lastCandidate ==> Distance(lastCandidate, y) >= i
      {
        var next: int32 := lastCandidate + i;
        var candidate := next % 65536;
        if candidate != 0 && candidate !in used {
          assert Distance(lastCandidate, candidate) == i;
          assert IsNext(lastCandidate, used, candidate);
          NextIsUnique(lastCandidate, used, candidate, NextId(lastCandidate, used).value);
          lastCandidate := candidate;
          return Some(candidate);
        }
        i := i + 1;
      }
      forall id: int | 1 <= id <= MAX_UBLK_ID && id != lastCandidate
        ensures id in used
      {
        assert Free(id, used) ==> Distance(lastCandidate, id) >= i;
      }
      r := None;
    }
  }

  // Runs: call n is made with the in-use set calls[n], however stale.

  ghost function LastAfter(start: int, calls: seq<set<int>>, n: nat): (last: int)
    requires 0 <= start <= MAX_UBLK_ID && n <= |calls|
    ensures 0 <= last <= MAX_UBLK_ID
  {
    if n == 0 then start
    else
      var r := NextId(LastAfter(start, calls, n - 1), calls[n - 1]);
      if r.Some? then r.value else LastAfter(start, calls, n - 1)
  }

  ghost function Issued(start: int, calls: seq<set<int>>, n: nat): Option<int>
    requires 0 <= start <= MAX_UBLK_ID && n < |calls|
  {
    NextId(LastAfter(start, calls, n), calls[n])
  }

  /** Call t gave `y` out, or was told that `y` is in use. */
  ghost predicate Served(start: int, calls: seq<set<int>>, y: int, t: nat)
    requires 0 <= start <= MAX_UBLK_ID && t < |calls|
  {
    Issued(start, calls, t) == Some(y) || y in calls[t]
  }

  /** A call that does not serve `y` moves strictly towards `y` or not at all, never past it. */
  lemma UnservedStep(last: int, inUse: set<int>, y: int)
    requires 0 <= last <= MAX_UBLK_ID && Free(y, inUse) && y != last
    requires NextId(last, inUse) != Some(y)
    ensures NextId(last, inUse).Some?
    ensures var id := NextId(last, inUse).value;
            1 <= id <= MAX_UBLK_ID && id != y && Distance(last, id) + Distance(id, y) == Distance(last, y) && 0 < Distance(last, id)
  {
    assert !Exhausted(last, inUse);
  }

  /** From the moment x is issued until it is issued again, the circle is swept: every other
      ID is issued or reported in use at some call in between. */
  lemma RoundRobin(start: int, calls: seq<set<int>>, i: nat, j: nat, x: int, y: int)
    requires 0 <= start <= MAX_UBLK_ID && i < j < |calls|
    requires Issued(start, calls, i) == Some(x) && Issued(start, calls, j) == Some(x)
    requires 1 <= y <= MAX_UBLK_ID && y != x
    ensures exists t: nat :: i < t <= j && Served(start, calls, y, t)
  {
    Sweep(start, calls, i + 1, j, x, y);
  }

  lemma {:induction false} Sweep(start: int, calls: seq<set<int>>, s: nat, j: nat, x: int, y: int)
    requires 0 <= start <= MAX_UBLK_ID && s <= j < |calls|
    requires Issued(start, calls, j) == Some(x)
    requires 1 <= x <= MAX_UBLK_ID && 1 <= y <= MAX_UBLK_ID
    requires Distance(x, LastAfter(start, calls, s)) < Distance(x, y)
    ensures exists t: nat :: s <= t <= j && Served(start, calls, y, t)
    decreases j - s
  {
    hide IsNext, Exhausted;
    if !Served(start, calls, y, s) {
      var last := LastAfter(start, calls, s);
      UnservedStep(last, calls[s], y);
      StepsAdvance(x, last, NextId(last, calls[s]).value, y);
      Sweep(start, calls, s + 1, j, x, y);
    }
  }

  /** Seen from x, a step towards y that starts before y ends before y and leaves x behind. */
  lemma StepsAdvance(x: int, last: int, id: int, y: int)
    requires Distance(x, last) < Distance(x, y)
    requires Distance(last, id) + Distance(id, y) == Distance(last, y) && 0 < Distance(last, id)
    requires 0 <= x < 65536 && 0 <= last < 65536 && 0 <= id < 65536 && 0 <= y < 65536 && id != y
    ensures Distance(x, last) < Distance(x, id) < Distance(x, y)
  {
    hide Distance;
    DistanceValue(x, last);
    DistanceValue(x, id);
    DistanceValue(x, y);
    DistanceValue(last, id);
    DistanceValue(id, y);
    DistanceValue(last, y);
  }

  lemma DistanceValue(from: int, to: int)
    requires 0 <= from < 65536 && 0 <= to < 65536
    ensures Distance(from, to) == if from <= to then to - from else to - from + 65536
  {}

  /** No call repeats the ID issued last, even when that ID is missing from a stale list. */
  lemma ConsecutiveIssuesDiffer(start: int, calls: seq<set<int>>, i: nat, j: nat)
    requires 0 <= start <= MAX_UBLK_ID && i < j < |calls|
    requires Issued(start, calls, i).Some? && Issued(start, calls, j).Some?
    requires forall t: nat :: i < t < j ==> Issued(start, calls, t).None?
    ensures Issued(start, calls, i) != Issued(start, calls, j)
  {
    FailuresKeepLast(start, calls, i + 1, j);
  }

  lemma {:induction false} FailuresKeepLast(start: int, calls: seq<set<int>>, i: nat, j: nat)
    requires 0 <= start <= MAX_UBLK_ID && i <= j < |calls|
    requires forall t: nat :: i <= t < j ==> Issued(start, calls, t).None?
    ensures LastAfter(start, calls, j) == LastAfter(start, calls, i)
  {
    if i < j {
      FailuresKeepLast(start, calls, i, j - 1);
      assert Issued(start, calls, j - 1).None?;
    }
  }

  /** An ID that stays free is issued before the circle is swept once. */
  lemma {:induction false} NoStarvation(start: int, calls: seq<set<int>>, s: nat, y: int)
    requires 0 <= start <= MAX_UBLK_ID && s <= |calls|
    requires 1 <= y <= MAX_UBLK_ID && y != LastAfter(start, calls, s)
    requires forall t: nat :: s <= t < |calls| ==> y !in calls[t]
    requires |calls| - s >= Distance(LastAfter(start, calls, s), y)
    ensures exists t: nat :: s <= t < |calls| && Issued(start, calls, t) == Some(y)
    decreases |calls| - s
  {
    if Issued(start, calls, s) != Some(y) {
      UnservedStep(LastAfter(start, calls, s), calls[s], y);
      NoStarvation(start, calls, s + 1, y);
    }
  }
}
