/** Time zones of muduo/base/TimeZone.cc: the transition lookup, and the local time round trip with its DST hack. */
module TimeZones {
  import opened Calendar

  datatype Transition = Transition(gmttime: int, localtime: int, localtimeIdx: nat)
  datatype Localtime = Localtime(gmtOffset: int, isDst: bool)
  datatype Data = Data(transitions: seq<Transition>, localtimes: seq<Localtime>)

  /** Comp: transitions are compared by UTC or by local time. */
  function Key(t: Transition, gmt: bool): int {
    if gmt then t.gmttime else t.localtime
  }

  predicate WellFormed(data: Data) {
    data.localtimes != [] && forall i :: 0 <= i < |data.transitions| ==> data.transitions[i].localtimeIdx < |data.localtimes|
  }

  ghost predicate Ascending(ts: seq<Transition>, gmt: bool) {
    forall i, j :: 0 <= i < j < |ts| ==> Key(ts[i], gmt) < Key(ts[j], gmt)
  }

  // ----- findLocaltime -----

  /** Linear scan: how many transitions are at or before the key. */
  function CountAtOrBefore(ts: seq<Transition>, gmt: bool, key: int): (n: nat)
    ensures n <= |ts|
    ensures forall i :: 0 <= i < n ==> Key(ts[i], gmt) <= key
    ensures n < |ts| ==> key < Key(ts[n], gmt)
  {
    if ts == [] || key < Key(ts[0], gmt) then 0 else 1 + CountAtOrBefore(ts[1..], gmt, key)
  }

  /** The offset in force: that of the last transition at or before the key, else the first entry. */
  function Lookup(data: Data, gmt: bool, key: int): Localtime
    requires WellFormed(data)
  {
    var n := CountAtOrBefore(data.transitions, gmt, key);
    if n == 0 then data.localtimes[0] else data.localtimes[data.transitions[n - 1].localtimeIdx]
  }

  lemma CountUnique(ts: seq<Transition>, gmt: bool, key: int, n: nat)
    requires Ascending(ts, gmt) && n <= |ts|
    requires 0 < n ==> Key(ts[n - 1], gmt) <= key
    requires n < |ts| ==> key < Key(ts[n], gmt)
    ensures CountAtOrBefore(ts, gmt, key) == n
  {
  }

  /** std::lower_bound: halving the range until it is empty. */
  method LowerBound(ts: seq<Transition>, gmt: bool, key: int) returns (first: nat)
    requires Ascending(ts, gmt)
    ensures first <= |ts|
    ensures forall i :: 0 <= i < first ==> Key(ts[i], gmt) < key
    ensures forall i :: first <= i < |ts| ==> key <= Key(ts[i], gmt)
  {
    first := 0;
    var len := |ts|;
    while 0 < len
      invariant 0 <= len && first + len <= |ts|
      invariant forall i :: 0 <= i < first ==> Key(ts[i], gmt) < key
      invariant forall i :: first + len <= i < |ts| ==> key <= Key(ts[i], gmt)
    {
      var half := len / 2;
      var middle := first + half;
      if Key(ts[middle], gmt) < key {
        first := middle + 1;
        len := len - half - 1;
      } else {
        len := half;
      }
    }
  }

  /** findLocaltime: the binary search and its three corrections agree with the linear scan. */
  method FindLocaltime(data: Data, gmt: bool, key: int) returns (local: Localtime)
    requires WellFormed(data) && Ascending(data.transitions, gmt)
    ensures local == Lookup(data, gmt, key)
  {
    hide CountAtOrBefore, Ascending, Lookup;
    var ts := data.transitions;
    if ts == [] || key < Key(ts[0], gmt) {
      CountUnique(ts, gmt, key, 0);
      LookupAt(data, gmt, key, 0);
      local := data.localtimes[0];
    } else {
      var i := LowerBound(ts, gmt, key);
      if i != |ts| {
        if key != Key(ts[i], gmt) {
          assert i != 0;
          i := i - 1;
        } else if i + 1 < |ts| {
          AscendingNext(ts, gmt, i);
        }
        FoundAt(data, gmt, key, i);
        local := data.localtimes[ts[i].localtimeIdx];
      } else {
        FoundAt(data, gmt, key, i - 1);
        local := data.localtimes[ts[|ts| - 1].localtimeIdx];
      }
    }
  }

  lemma AscendingNext(ts: seq<Transition>, gmt: bool, i: nat)
    requires Ascending(ts, gmt) && i + 1 < |ts|
    ensures Key(ts[i], gmt) < Key(ts[i + 1], gmt)
  {
  }

  lemma FoundAt(data: Data, gmt: bool, key: int, i: nat)
    requires WellFormed(data) && Ascending(data.transitions, gmt) && i < |data.transitions|
    requires Key(data.transitions[i], gmt) <= key
    requires i + 1 < |data.transitions| ==> key < Key(data.transitions[i + 1], gmt)
    ensures Lookup(data, gmt, key) == data.localtimes[data.transitions[i].localtimeIdx]
  {
    CountUnique(data.transitions, gmt, key, i + 1);
  }

  // ----- local time -----

  /** A struct tm filled by toLocalTime. */
  datatype LocalTm = LocalTm(tm: Tm, isDst: bool, gmtOffset: int)

  function ToLocalTime(data: Data, t: int): LocalTm
    requires WellFormed(data)
  {
    var local := Lookup(data, true, t);
    LocalTm(ToUtcTime(t + local.gmtOffset), local.isDst, local.gmtOffset)
  }

  function FromLocalTime(data: Data, l: LocalTm): int
    requires WellFormed(data)
  {
    var seconds := FromUtcTime(l.tm);
    var local := Lookup(data, false, seconds);
    if l.isDst then
      var try := ToLocalTime(data, seconds - local.gmtOffset);
      if !try.isDst && try.tm.hour == l.tm.hour && try.tm.minute == l.tm.minute
      then seconds - 3600 - local.gmtOffset
      else seconds - local.gmtOffset
    else seconds - local.gmtOffset
  }

  // ----- zones with regular daylight saving -----

  function Offset(data: Data, i: nat): int
    requires WellFormed(data) && i < |data.transitions|
  {
    data.localtimes[data.transitions[i].localtimeIdx].gmtOffset
  }

  /**
   * Standard offset `std`, and transitions that alternate between daylight time, `shift` seconds ahead, and standard
   * time, starting with daylight time and lying further apart than the shift.
   */
  ghost predicate Regular(data: Data, std: int, shift: int) {
    && WellFormed(data) && 0 < shift
    && data.localtimes[0] == Localtime(std, false)
    && (forall i :: 0 <= i < |data.transitions| ==>
         && data.localtimes[data.transitions[i].localtimeIdx] == (if i % 2 == 0 then Localtime(std + shift, true) else Localtime(std, false))
         && data.transitions[i].localtime == data.transitions[i].gmttime + Offset(data, i))
    && (forall i, j :: 0 <= i < j < |data.transitions| ==> data.transitions[i].gmttime + shift < data.transitions[j].gmttime)
  }

  lemma RegularAscends(data: Data, std: int, shift: int)
    requires Regular(data, std, shift)
    ensures Ascending(data.transitions, true) && Ascending(data.transitions, false)
  {
  }

  lemma RegularWellFormed(data: Data, std: int, shift: int)
    requires Regular(data, std, shift)
    ensures WellFormed(data) && 0 < shift
  {
  }

  lemma RegularAt(data: Data, std: int, shift: int, i: nat)
    requires Regular(data, std, shift) && i < |data.transitions|
    ensures WellFormed(data)
    ensures var t := data.transitions[i];
            if i % 2 == 0 then data.localtimes[t.localtimeIdx] == Localtime(std + shift, true) && t.localtime == t.gmttime + std + shift
            else data.localtimes[t.localtimeIdx] == Localtime(std, false) && t.localtime == t.gmttime + std
    ensures i + 1 < |data.transitions| ==> data.transitions[i].gmttime + shift < data.transitions[i + 1].gmttime
  {
  }

  /** The periods of the zone: before the first transition, and between neighbours; even ones are standard time. */
  lemma PeriodOf(data: Data, std: int, shift: int, t: int)
    requires Regular(data, std, shift)
    ensures var n := CountAtOrBefore(data.transitions, true, t);
            Lookup(data, true, t) == if n % 2 == 1 then Localtime(std + shift, true) else Localtime(std, false)
  {
    var n := CountAtOrBefore(data.transitions, true, t);
    if 0 < n {
      RegularAt(data, std, shift, n - 1);
    }
  }

  lemma LookupAt(data: Data, gmt: bool, key: int, n: nat)
    requires WellFormed(data) && CountAtOrBefore(data.transitions, gmt, key) == n
    ensures Lookup(data, gmt, key) == if n == 0 then data.localtimes[0] else data.localtimes[data.transitions[n - 1].localtimeIdx]
  {
  }

  /** A local second outside the repeated stretch is looked up in its own period. */
  lemma LocalLookupPlain(data: Data, std: int, shift: int, t: int, n: nat)
    requires Regular(data, std, shift) && n == CountAtOrBefore(data.transitions, true, t)
    requires n % 2 == 1 && n < |data.transitions| ==> t + shift < data.transitions[n].gmttime
    ensures Lookup(data, false, t + Lookup(data, true, t).gmtOffset) == Lookup(data, true, t)
  {
    PeriodOf(data, std, shift, t);
    RegularAscends(data, std, shift);
    if 0 < n {
      RegularAt(data, std, shift, n - 1);
    }
    if n < |data.transitions| {
      RegularAt(data, std, shift, n);
    }
    hide Regular, Ascending;
    CountUnique(data.transitions, false, t + Lookup(data, true, t).gmtOffset, n);
  }

  /** The last `shift` seconds of a daylight period: local lookup finds the standard time that follows. */
  lemma LocalLookupRepeated(data: Data, std: int, shift: int, t: int, n: nat)
    requires Regular(data, std, shift) && n == CountAtOrBefore(data.transitions, true, t)
    requires n % 2 == 1 && n < |data.transitions| && data.transitions[n].gmttime <= t + shift
    ensures Lookup(data, false, t + std + shift) == Localtime(std, false)
    ensures Lookup(data, true, t + shift) == Localtime(std, false)
  {
    hide Regular, Ascending, Lookup, CountAtOrBefore, WellFormed;
    RegularAscends(data, std, shift);
    RegularAt(data, std, shift, n);
    if n + 1 < |data.transitions| {
      RegularAt(data, std, shift, n + 1);
    }
    CountUnique(data.transitions, false, t + std + shift, n + 1);
    CountUnique(data.transitions, true, t + shift, n + 1);
    LookupAt(data, false, t + std + shift, n + 1);
    LookupAt(data, true, t + shift, n + 1);
  }

  /** `t` is one of the last `shift` seconds of a daylight period, whose local times come round again. */
  predicate InRepeated(data: Data, shift: int, t: int) {
    var n := CountAtOrBefore(data.transitions, true, t);
    n % 2 == 1 && n < |data.transitions| && data.transitions[n].gmttime <= t + shift
  }

  lemma UtcReturns(t: int)
    requires FIRST_SECOND <= t
    ensures FromUtcTime(ToUtcTime(t)) == t
  {
    UtcRoundTrip(t);
  }

  lemma FromLocalPlain(data: Data, t: int)
    requires WellFormed(data)
    requires var local := Lookup(data, true, t);
             FIRST_SECOND <= t + local.gmtOffset && Lookup(data, false, t + local.gmtOffset) == local
    ensures FromLocalTime(data, ToLocalTime(data, t)) == t
  {
    hide FromUtcTime, ToUtcTime, Lookup, WellFormed;
    UtcReturns(t + Lookup(data, true, t).gmtOffset);
  }

  lemma FromLocalRepeated(data: Data, std: int, shift: int, t: int)
    requires WellFormed(data) && FIRST_SECOND <= t + std + shift
    requires Lookup(data, true, t) == Localtime(std + shift, true)
    requires Lookup(data, false, t + std + shift) == Localtime(std, false)
    requires Lookup(data, true, t + shift) == Localtime(std, false)
    ensures FromLocalTime(data, ToLocalTime(data, t)) == t + shift - 3600
  {
    hide FromUtcTime, ToUtcTime, Lookup, WellFormed;
    UtcReturns(t + std + shift);
    var l := ToLocalTime(data, t);
    assert t + (std + shift) == t + std + shift && FromUtcTime(l.tm) == t + std + shift;
    assert t + std + shift - std == t + shift && t + shift + std == t + std + shift;
    assert ToLocalTime(data, t + shift).tm == l.tm;
  }

  /** The second that comes back: the one that went in, off by shift - 3600 in the repeated stretch. */
  lemma LocalTimeReturns(data: Data, std: int, shift: int, t: int)
    requires Regular(data, std, shift) && FIRST_SECOND <= t + std
    ensures FromLocalTime(data, ToLocalTime(data, t)) == if InRepeated(data, shift, t) then t + shift - 3600 else t
  {
    RegularWellFormed(data, std, shift);
    hide Regular, WellFormed, FromLocalTime, ToLocalTime, Lookup, CountAtOrBefore;
    var n := CountAtOrBefore(data.transitions, true, t);
    PeriodOf(data, std, shift, t);
    if InRepeated(data, shift, t) {
      LocalLookupRepeated(data, std, shift, t, n);
      FromLocalRepeated(data, std, shift, t);
    } else {
      LocalLookupPlain(data, std, shift, t, n);
      FromLocalPlain(data, t);
    }
  }

  /**
   * With a shift of one hour, a local time converts back to the second it came from, in both passes of the repeated
   * hour too.
   */
  lemma LocalTimeRoundTrip(data: Data, std: int, t: int)
    requires Regular(data, std, 3600) && FIRST_SECOND <= t + std
    ensures FromLocalTime(data, ToLocalTime(data, t)) == t
  {
    LocalTimeReturns(data, std, 3600, t);
  }

  ghost predicate RoundTrips(data: Data, std: int)
    requires WellFormed(data)
  {
    forall t :: FIRST_SECOND <= t + std ==> FromLocalTime(data, ToLocalTime(data, t)) == t
  }

  /** Exactly an hour: for any other shift the last daylight second of a season does not come back. */
  lemma RoundTripIffHour(data: Data, std: int, shift: int)
    requires Regular(data, std, shift) && 2 <= |data.transitions|
    requires FIRST_SECOND <= data.transitions[0].gmttime + std
    ensures RoundTrips(data, std) <==> shift == 3600
  {
    if shift == 3600 {
      forall t | FIRST_SECOND <= t + std ensures FromLocalTime(data, ToLocalTime(data, t)) == t {
        LocalTimeRoundTrip(data, std, t);
      }
    } else {
      var t := data.transitions[1].gmttime - 1;
      RegularAscends(data, std, shift);
      CountUnique(data.transitions, true, t, 1);
      LocalTimeReturns(data, std, shift, t);
      assert FromLocalTime(data, ToLocalTime(data, t)) != t;
    }
  }

  /** Local time is the UTC time of the second moved by the offset in force, and says which offset that is. */
  lemma LocalFields(data: Data, t: int)
    requires WellFormed(data)
    ensures var local, l := Lookup(data, true, t), ToLocalTime(data, t);
            && l.gmtOffset == local.gmtOffset && l.isDst == local.isDst
            && (FIRST_SECOND <= t + local.gmtOffset ==> FromUtcTime(l.tm) == t + local.gmtOffset)
  {
    hide FromUtcTime, ToUtcTime, Lookup, WellFormed;
    var local := Lookup(data, true, t);
    if FIRST_SECOND <= t + local.gmtOffset {
      UtcReturns(t + local.gmtOffset);
    }
  }

  /**
   * Any local time converts by the offset in force at it; one marked as daylight time goes an hour further back exactly
   * when standard time shows the same hour and minute there.
   */
  lemma LocalConverts(data: Data, l: LocalTm)
    requires WellFormed(data)
    ensures var seconds := FromUtcTime(l.tm);
            var t := seconds - Lookup(data, false, seconds).gmtOffset;
            var again := ToLocalTime(data, t);
            var repeated := l.isDst && !again.isDst && again.tm.hour == l.tm.hour && again.tm.minute == l.tm.minute;
            FromLocalTime(data, l) == t - if repeated then 3600 else 0
  {
    hide ToUtcTime, FromUtcTime, Lookup, WellFormed, ToLocalTime;
  }
}
