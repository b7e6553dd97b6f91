/** The rolling one-hour failure count behind the sync status: a bounded slice of timestamps that is shifted
    in place, against the full history of failures. Times are nanoseconds. */
module ErrorRing {

  const SECOND: int := 1_000_000_000
  const HOUR: int := 3_600_000_000_000
  const CAP: nat := 48

  function Newest(ts: seq<int>): seq<int> {
    if |ts| > CAP then ts[|ts| - CAP..] else ts
  }

  function CountAfter(ts: seq<int>, cutoff: int): (n: nat)
    ensures n <= |ts|
  {
    if ts == [] then 0 else (if ts[0] > cutoff then 1 else 0) + CountAfter(ts[1..], cutoff)
  }

  /** The first position after the cutoff; 0 when there is none. */
  function FirstAfter(ts: seq<int>, cutoff: int): (i: nat)
    ensures i == 0 || i < |ts|
    ensures forall k :: 0 <= k < i ==> ts[k] <= cutoff
  {
    if exists k :: 0 <= k < |ts| && ts[k] > cutoff then First(ts, cutoff, 0) else 0
  }

  function First(ts: seq<int>, cutoff: int, from: nat): (i: nat)
    requires exists k :: from <= k < |ts| && ts[k] > cutoff
    ensures from <= i < |ts| && ts[i] > cutoff && forall k :: from <= k < i ==> ts[k] <= cutoff
    decreases |ts| - from
  {
    if ts[from] > cutoff then from else First(ts, cutoff, from + 1)
  }

  lemma FirstAfterIs(ts: seq<int>, cutoff: int, i: nat)
    requires i < |ts| && ts[i] > cutoff && forall k :: 0 <= k < i ==> ts[k] <= cutoff
    ensures FirstAfter(ts, cutoff) == i
  {
  }

  function Pushed(ring: seq<int>, t: int): seq<int> {
    var all := ring + [t];
    Newest(all[FirstAfter(all, t - HOUR)..])
  }

  // ----- agreement with the full history -----

  /** part is what is left of whole once some stale entries were dropped from its front. */
  ghost predicate FreshPart(part: seq<int>, whole: seq<int>, history: seq<int>) {
    && |part| <= |whole|
    && part == whole[|whole| - |part|..]
    && forall k :: 0 <= k < |whole| - |part| ==> Stale(whole[k], history)
  }

  ghost predicate Stale(t: int, history: seq<int>) {
    exists h :: h in history && t <= h - HOUR
  }

  ghost predicate Agrees(ring: seq<int>, history: seq<int>) {
    FreshPart(ring, Newest(history), history)
  }

  lemma AppendPart(part: seq<int>, whole: seq<int>, history: seq<int>, t: int)
    requires FreshPart(part, whole, history)
    ensures FreshPart(part + [t], whole + [t], history + [t])
  {
    forall k | 0 <= k < |whole| - |part|
      ensures Stale((whole + [t])[k], history + [t])
    {
      assert Stale(whole[k], history);
      var h :| h in history && whole[k] <= h - HOUR;
      assert h in history + [t];
    }
  }

  lemma DropStale(part: seq<int>, whole: seq<int>, history: seq<int>, i: nat, t: int)
    requires FreshPart(part, whole, history) && i <= |part| && t in history
    requires forall k :: 0 <= k < i ==> part[k] <= t - HOUR
    ensures FreshPart(part[i..], whole, history)
  {
    forall k | 0 <= k < |whole| - |part[i..]|
      ensures Stale(whole[k], history)
    {
      if k >= |whole| - |part| {
        assert whole[k] == part[k - (|whole| - |part|)];
      }
    }
  }

  lemma CapBoth(part: seq<int>, whole: seq<int>, history: seq<int>)
    requires FreshPart(part, whole, history)
    ensures FreshPart(Newest(part), Newest(whole), history)
  {
    var p, w := Newest(part), Newest(whole);
    assert forall k :: 0 <= k < |w| - |p| ==> w[k] == whole[k + (|whole| - |w|)];
  }

  lemma NewestAppend(history: seq<int>, t: int)
    ensures Newest(Newest(history) + [t]) == Newest(history + [t])
  {
  }

  lemma PushKeepsAgreement(ring: seq<int>, history: seq<int>, t: int)
    requires Agrees(ring, history)
    ensures Agrees(Pushed(ring, t), history + [t])
  {
    hide FreshPart, FirstAfter;
    var all, wide := ring + [t], Newest(history) + [t];
    var i := FirstAfter(all, t - HOUR);
    assert all[|ring|] == t;
    AppendPart(ring, Newest(history), history, t);
    DropStale(all, wide, history + [t], i, t);
    CapBoth(all[i..], wide, history + [t]);
    NewestAppend(history, t);
  }

  lemma {:induction false} CountConcat(a: seq<int>, b: seq<int>, cutoff: int)
    ensures CountAfter(a + b, cutoff) == CountAfter(a, cutoff) + CountAfter(b, cutoff)
  {
    if a == [] {
      assert a + b == b;
    } else {
      CountConcat(a[1..], b, cutoff);
      assert (a + b)[1..] == a[1..] + b;
    }
  }

  lemma {:induction false} CountNone(ts: seq<int>, cutoff: int)
    requires forall k :: 0 <= k < |ts| ==> ts[k] <= cutoff
    ensures CountAfter(ts, cutoff) == 0
  {
    if ts != [] {
      CountNone(ts[1..], cutoff);
    }
  }

  lemma {:induction false} CountAll(ts: seq<int>, cutoff: int)
    ensures CountAfter(ts, cutoff) == |ts| <==> forall k :: 0 <= k < |ts| ==> ts[k] > cutoff
  {
    if ts != [] {
      CountAll(ts[1..], cutoff);
      assert forall k :: 1 <= k < |ts| ==> ts[k] == ts[1..][k - 1];
      assert (forall k :: 0 <= k < |ts[1..]| ==> ts[1..][k] > cutoff) ==> forall k :: 1 <= k < |ts| ==> ts[k] > cutoff;
      assert (forall k :: 0 <= k < |ts| ==> ts[k] > cutoff) ==> forall k :: 0 <= k < |ts[1..]| ==> ts[1..][k] > cutoff;
    }
  }

  /** Whatever the order of the recorded times, a query no earlier than any of them counts exactly the
      in-window failures among the newest 48. */
  lemma QueryCountsNewest(ring: seq<int>, history: seq<int>, now: int)
    requires Agrees(ring, history)
    requires forall h :: h in history ==> h <= now
    ensures CountAfter(ring, now - HOUR) == CountAfter(Newest(history), now - HOUR)
  {
    var newest := Newest(history);
    var dropped := newest[..|newest| - |ring|];
    forall k | 0 <= k < |dropped|
      ensures dropped[k] <= now - HOUR
    {
      assert Stale(newest[k], history);
    }
    CountNone(dropped, now - HOUR);
    CountConcat(dropped, ring, now - HOUR);
    assert newest == dropped + ring;
  }

  ghost predicate Nondecreasing(ts: seq<int>) {
    forall i, j :: 0 <= i < j < |ts| ==> ts[i] <= ts[j]
  }

  /** With times recorded in order, the cap is the only thing lost. */
  lemma InOrderCount(history: seq<int>, cutoff: int)
    requires Nondecreasing(history)
    ensures CountAfter(Newest(history), cutoff)
         == if CountAfter(history, cutoff) < CAP then CountAfter(history, cutoff) else CAP
  {
    if |history| > CAP {
      var older, newest := history[..|history| - CAP], Newest(history);
      assert history == older + newest;
      CountConcat(older, newest, cutoff);
      CountAll(newest, cutoff);
      if CountAfter(newest, cutoff) < CAP {
        var k :| 0 <= k < |newest| && newest[k] <= cutoff;
        assert newest[k] == history[|older| + k];
        CountNone(older, cutoff);
      }
    }
  }

  /** The positions of the entries after the cutoff. */
  ghost function Since(ts: seq<int>, cutoff: int): set<nat> {
    set i | 0 <= i < |ts| && ts[i] > cutoff
  }

  /** Counting one by one counts those. */
  lemma {:induction false} CountIs(ts: seq<int>, cutoff: int)
    ensures CountAfter(ts, cutoff) == |Since(ts, cutoff)|
  {
    if ts != [] {
      var k := |ts| - 1;
      CountIs(ts[..k], cutoff);
      assert ts == ts[..k] + [ts[k]];
      CountConcat(ts[..k], [ts[k]], cutoff);
      assert CountAfter([ts[k]][1..], cutoff) == 0;
      assert Since(ts, cutoff) == Since(ts[..k], cutoff) + if ts[k] > cutoff then {k} else {};
    }
  }

  /** What is left in the ring tells the failures of the last hour among the newest 48; recorded in order, all failures
      of the last hour up to 48. */
  lemma Reported(ring: seq<int>, history: seq<int>, now: int)
    requires Agrees(ring, history)
    requires forall h :: h in history ==> h <= now
    ensures CountAfter(ring, now - HOUR) ==
            |Since(if |history| > 48 then history[|history| - 48..] else history, now - 60 * 60 * SECOND)|
    ensures Nondecreasing(history) ==>
              var n := |Since(history, now - 60 * 60 * SECOND)|;
              CountAfter(ring, now - HOUR) == if n < 48 then n else 48
  {
    hide Agrees, Since, CountAfter, Nondecreasing;
    QueryCountsNewest(ring, history, now);
    CountIs(Newest(history), now - HOUR);
    if Nondecreasing(history) {
      InOrderCount(history, now - HOUR);
      CountIs(history, now - HOUR);
    }
  }

  // ----- the slice -----

  /** A buffer whose elements from off + idx to off + k have been copied idx places to the front. */
  ghost function Shifted(was: seq<int>, off: nat, idx: nat, k: nat): (now: seq<int>)
    requires idx <= k && off + k <= |was|
    ensures |now| == |was|
  {
    was[..off] + was[off + idx..off + k] + was[off + (k - idx)..]
  }

  lemma ShiftedNone(was: seq<int>, off: nat, idx: nat)
    requires off + idx <= |was|
    ensures Shifted(was, off, idx, idx) == was
  {
  }

  lemma ShiftedStep(was: seq<int>, off: nat, idx: nat, k: nat)
    requires idx <= k && off + k < |was|
    ensures Shifted(was, off, idx, k)[off + k] == was[off + k]
    ensures Shifted(was, off, idx, k + 1) == Shifted(was, off, idx, k)[off + (k - idx) := was[off + k]]
  {
  }

  lemma ShiftedAll(was: seq<int>, off: nat, idx: nat, len: nat)
    requires idx <= len && off + len <= |was|
    ensures Shifted(was, off, idx, len)[off..off + (len - idx)] == was[off..off + len][idx..]
  {
  }

  /** A Go slice of timestamps: a window into a backing array. */
  class Ring {
    var buf: array<int>
    var off: nat
    var len: nat

    ghost predicate Valid()
      reads this
    {
      off + len <= buf.Length
    }

    ghost function Contents(): seq<int>
      reads this, buf
      requires Valid()
    {
      buf[off..off + len]
    }

    constructor ()
      ensures Valid() && Contents() == [] && fresh(buf)
    {
      buf := new int[0];
      off, len := 0, 0;
    }

    /** append: in place while the backing array has room, into a larger copy otherwise. */
    method Append(t: int)
      requires Valid()
      modifies this, buf
      ensures Valid() && (buf == old(buf) || fresh(buf))
      ensures Contents() == old(Contents()) + [t]
    {
      if off + len == buf.Length {
        var bigger := new int[2 * len + 1];
        for i := 0 to len
          modifies bigger
          invariant forall k :: 0 <= k < i ==> bigger[k] == Contents()[k]
        {
          bigger[i] := buf[off + i];
        }
        buf, off := bigger, 0;
      }
      buf[off + len] := t;
      len := len + 1;
    }

    /** Move everything from idx on to the front of the window, in the same array. */
    method ShiftTo(idx: nat)
      requires Valid() && idx <= len
      modifies this`len, buf
      ensures Valid() && buf == old(buf)
      ensures Contents() == old(Contents())[idx..]
    {
      hide Shifted;
      ghost var was := buf[..];
      ShiftedNone(was, off, idx);
      for k := idx to len
        modifies buf
        invariant buf[..] == Shifted(was, off, idx, k)
      {
        ShiftedStep(was, off, idx, k);
        ghost var now := buf[..];
        buf[off + (k - idx)] := buf[off + k];
        assert buf[..] == now[off + (k - idx) := now[off + k]];
      }
      ShiftedAll(was, off, idx, len);
      len := len - idx;
      assert Contents() == buf[..][off..off + len];
    }

    /** Keep the newest 48. */
    method Trim()
      requires Valid()
      modifies this`off, this`len
      ensures Valid() && Contents() == Newest(old(Contents()))
    {
      if len > CAP {
        off, len := off + (len - CAP), CAP;
      }
    }

    /** The scan for the first timestamp after the cutoff; the newest one always is. */
    method FirstInWindow(cutoff: int) returns (idx: nat)
      requires Valid() && len > 0 && Contents()[len - 1] > cutoff
      ensures idx == FirstAfter(Contents(), cutoff) && idx < len
    {
      ghost var all := Contents();
      idx := 0;
      while buf[off + idx] <= cutoff
        invariant idx < len
        invariant forall k :: 0 <= k < idx ==> all[k] <= cutoff
        decreases len - idx
      {
        assert all[idx] <= cutoff;
        idx := idx + 1;
      }
      FirstAfterIs(all, cutoff, idx);
    }

    method Push(t: int)
      requires Valid()
      modifies this, buf
      ensures Valid() && (buf == old(buf) || fresh(buf))
      ensures Contents() == Pushed(old(Contents()), t)
    {
      hide FirstAfter, Newest;
      Append(t);
      var idx := FirstInWindow(t - HOUR);
      ghost var all := Contents();
      if idx > 0 {
        ShiftTo(idx);
      }
      assert Contents() == all[idx..];
      Trim();
    }

    method CountSince(cutoff: int) returns (n: nat)
      requires Valid()
      ensures n == CountAfter(Contents(), cutoff)
    {
      n := 0;
      ghost var ts := Contents();
      for i := 0 to len
        invariant n == CountAfter(ts[..i], cutoff)
      {
        assert ts[..i + 1] == ts[..i] + [ts[i]];
        CountConcat(ts[..i], [ts[i]], cutoff);
        assert CountAfter([ts[i]][1..], cutoff) == 0;
        if buf[off + i] > cutoff {
          n := n + 1;
        }
      }
      assert ts[..len] == ts;
    }
  }

  datatype Drift = Drift(username: string, inboundTag: string)

  datatype Snapshot = Snapshot(
    lastAt: int, lastOK: bool, lastError: string, errorsLastHour: nat, dbUsers: nat, configUsers: nat,
    drift: seq<Drift>, probeOK: bool, probeError: string)

  /** The syncer's health record. history is every failure time ever recorded. */
  class StatusState {
    var probeOK: bool
    var probeError: string
    var lastAt: int
    var lastOK: bool
    var lastError: string
    const errors: Ring
    var dbUsers: nat
    var configUsers: nat
    var drift: seq<Drift>
    ghost var history: seq<int>

    ghost predicate Valid()
      reads this, errors, errors.buf
    {
      errors.Valid() && Agrees(errors.Contents(), history)
    }

    constructor ()
      ensures Valid() && history == [] && fresh(errors) && fresh(errors.buf)
    {
      probeOK, probeError, lastAt, lastOK, lastError := false, "", 0, false, "";
      errors := new Ring();
      dbUsers, configUsers, drift, history := 0, 0, [], [];
    }

    method Record(at: int, ok: bool, message: string, dbUsers: nat, configUsers: nat, drift: seq<Drift>)
      requires Valid()
      modifies this, errors, errors.buf
      ensures Valid() && (errors.buf == old(errors.buf) || fresh(errors.buf))
      ensures history == old(history) + if ok then [] else [at]
      ensures lastAt == at && lastOK == ok && lastError == message
      ensures this.dbUsers == dbUsers && this.configUsers == configUsers && this.drift == drift
      ensures probeOK == old(probeOK) && probeError == old(probeError)
    {
      hide Agrees, Pushed;
      lastAt, lastOK, lastError := at, ok, message;
      this.dbUsers, this.configUsers, this.drift := dbUsers, configUsers, drift;
      if !ok {
        PushKeepsAgreement(errors.Contents(), history, at);
        errors.Push(at);
        history := history + [at];
      }
    }

    /** The reported count is the number of failures in the last hour, capped at 48. */
    method TakeSnapshot(now: int) returns (s: Snapshot)
      requires Valid()
      ensures s.lastAt == lastAt && s.lastOK == lastOK && s.lastError == lastError
      ensures s.dbUsers == dbUsers && s.configUsers == configUsers && s.drift == drift
      ensures s.probeOK == probeOK && s.probeError == probeError
      ensures (forall h :: h in history ==> h <= now) ==>
                s.errorsLastHour == |Since(if |history| > 48 then history[|history| - 48..] else history, now - 60 * 60 * SECOND)|
      ensures (forall h :: h in history ==> h <= now) && Nondecreasing(history) ==>
                var n := |Since(history, now - 60 * 60 * SECOND)|;
                s.errorsLastHour == if n < 48 then n else 48
    {
      hide Agrees, Newest, Since, CountAfter, Nondecreasing;
      var n := errors.CountSince(now - HOUR);
      if forall h :: h in history ==> h <= now {
        Reported(errors.Contents(), history, now);
      }
      s := Snapshot(lastAt, lastOK, lastError, n, dbUsers, configUsers, drift, probeOK, probeError);
    }
  }
}
