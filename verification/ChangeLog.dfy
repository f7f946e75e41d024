/**
 The CCMS change log.  A scan compares the point table with the values last reported and logs
 every cell that moved by at least 1; the log keeps the newest hundred entries, newest first,
 and is shifted in place through a scratch array.  Point values are reals.
 */
module ChangeLog {
  const PCMS: nat := 32
  const POINTS: nat := 64
  const TABLE_POINTS: nat := 256
  const LOG_SIZE: nat := 1024
  const LOG_LIMIT: nat := 100

  /** What the clock says: month from 0, day, hour and minute. */
  datatype Time = Time(mon: nat, mday: nat, hour: nat, min: nat)

  datatype Entry = Entry(wDate: nat, wTime: nat, wPcm: nat, wPno: nat, fValue: real)

  type Table = seq<seq<real>>

  ghost predicate IsTable(t: Table) {
    |t| == PCMS && forall p | 0 <= p < PCMS :: |t[p]| == POINTS
  }

  function AsWord(n: int): nat {
    n % 0x1_0000
  }

  /** The record that `cfile_put_log` stores; every field is an unsigned short but the value. */
  function Stamped(tm: Time, pcm: int, pno: int, value: real): Entry {
    Entry(AsWord((tm.mon + 1) * 100 + tm.mday), AsWord(tm.hour * 100 + tm.min), AsWord(pcm), AsWord(pno), value)
  }

  /** The page generator divides by 100 to get month, day, hour and minute back. */
  lemma StampReadsBack(tm: Time, pcm: int, pno: int, value: real)
    requires tm.mon < 12 && tm.mday < 100 && tm.hour < 24 && tm.min < 100
    ensures var e := Stamped(tm, pcm, pno, value);
            && e.wDate / 100 == tm.mon + 1 && e.wDate % 100 == tm.mday
            && e.wTime / 100 == tm.hour && e.wTime % 100 == tm.min
  {
  }

  /** The dead band: only a move by at least 1 counts. */
  predicate Moved(now: real, pre: real) {
    now != pre && (if now > pre then now - pre else pre - now) >= 1.0
  }

  // ---------------------------------------------------------------- histories, newest first

  /** The value of a cell after replaying a history over a starting table. */
  function Replay(base: Table, history: seq<Entry>, p: nat, n: nat): real
    requires p < |base| && n < |base[p]|
  {
    if |history| == 0 then base[p][n]
    else if history[0].wPcm == p && history[0].wPno == n then history[0].fValue
    else Replay(base, history[1..], p, n)
  }

  /** The entries that a scan logs for the first `k` cells in row order. */
  ghost function ScanLog(now: Table, pre: Table, clock: nat -> Time, k: nat): (log: seq<Entry>)
    requires IsTable(now) && IsTable(pre) && k <= PCMS * POINTS
  {
    if k == 0 then []
    else
      var log := ScanLog(now, pre, clock, k - 1);
      var p, n := (k - 1) / POINTS, (k - 1) % POINTS;
      if Moved(now[p][n], pre[p][n]) then [Stamped(clock(|log|), p, n, now[p][n])] + log else log
  }

  /** What a scan makes of one cell. */
  function Followed(now: real, pre: real): real {
    if Moved(now, pre) then now else pre
  }

  lemma FollowedIsNear(now: real, pre: real)
    ensures -1.0 < now - Followed(now, pre) < 1.0
    ensures !Moved(now, Followed(now, pre))
  {
  }

  function Newest(history: seq<Entry>): seq<Entry> {
    if |history| <= LOG_LIMIT then history else history[..LOG_LIMIT]
  }

  class Log {
    const g_ccmsPointLog: array<Entry>
    const g_ccmsPrevPointLog: array<Entry>
    var g_nLogPointCount: nat
    const ccms_pre_ptbl: array2<real>

    /** Every entry ever logged, those since the last restore, and the table restored then. */
    ghost var history: seq<Entry>
    ghost var recent: seq<Entry>
    ghost var base: Table

    ghost predicate LogValid()
      reads this, g_ccmsPointLog
    {
      && g_ccmsPointLog.Length == g_ccmsPrevPointLog.Length == LOG_SIZE && g_ccmsPointLog != g_ccmsPrevPointLog
      && g_nLogPointCount <= LOG_LIMIT
      && g_ccmsPointLog[..g_nLogPointCount] == Newest(history)
      && recent <= history
    }

    ghost predicate TableValid()
      reads this, ccms_pre_ptbl
    {
      && ccms_pre_ptbl.Length0 == PCMS && ccms_pre_ptbl.Length1 == POINTS
      && IsTable(base)
      && forall p, n | 0 <= p < PCMS && 0 <= n < POINTS :: ccms_pre_ptbl[p, n] == Replay(base, recent, p, n)
    }

    ghost predicate Valid()
      reads this, g_ccmsPointLog, ccms_pre_ptbl
    {
      LogValid() && TableValid()
    }

    constructor (zero: Entry)
      ensures Valid() && history == [] && recent == []
      ensures fresh(g_ccmsPointLog) && fresh(g_ccmsPrevPointLog) && fresh(ccms_pre_ptbl)
      ensures g_ccmsPointLog.Length == g_ccmsPrevPointLog.Length == 1024
      ensures ccms_pre_ptbl.Length0 == 32 && ccms_pre_ptbl.Length1 == 64
    {
      g_ccmsPointLog := new Entry[LOG_SIZE](_ => zero);
      g_ccmsPrevPointLog := new Entry[LOG_SIZE](_ => zero);
      g_nLogPointCount := 0;
      ccms_pre_ptbl := new real[PCMS, POINTS]((p, n) => 0.0);
      history, recent := [], [];
      base := seq(PCMS, _ => seq(POINTS, _ => 0.0));
    }

    /** The two block copies through the scratch array are a shift by one place. */
    method ShiftDown(n: nat)
      requires g_ccmsPointLog.Length == g_ccmsPrevPointLog.Length == LOG_SIZE && g_ccmsPointLog != g_ccmsPrevPointLog
      requires n < LOG_SIZE
      modifies g_ccmsPointLog, g_ccmsPrevPointLog
      ensures g_ccmsPointLog[1..n + 1] == old(g_ccmsPointLog[..n])
      ensures g_ccmsPointLog[0] == old(g_ccmsPointLog[0]) && g_ccmsPointLog[n + 1..] == old(g_ccmsPointLog[n + 1..])
    {
      forall i | 0 <= i < n {
        g_ccmsPrevPointLog[i] := g_ccmsPointLog[i];
      }
      forall i | 0 <= i < n {
        g_ccmsPointLog[1 + i] := g_ccmsPrevPointLog[i];
      }
    }

    /** The entries move down by one and the new one goes on top. */
    method PushTop(e: Entry)
      requires g_ccmsPointLog.Length == g_ccmsPrevPointLog.Length == LOG_SIZE && g_ccmsPointLog != g_ccmsPrevPointLog
      requires g_nLogPointCount <= LOG_LIMIT
      modifies g_ccmsPointLog, g_ccmsPrevPointLog
      ensures g_ccmsPointLog[..g_nLogPointCount + 1] == [e] + old(g_ccmsPointLog[..g_nLogPointCount])
    {
      var n := g_nLogPointCount;
      if n != 0 {
        ShiftDown(n);
      }
      g_ccmsPointLog[0] := e;
      OnTop(g_ccmsPointLog[..], e, old(g_ccmsPointLog[..n]));
      assert g_ccmsPointLog[..n + 1] == g_ccmsPointLog[..][..n + 1];
    }

    /** `cfile_put_log`. */
    method PutLog(tm: Time, pcm: int, pno: int, value: real)
      requires LogValid()
      modifies this`g_nLogPointCount, this`history, this`recent, g_ccmsPointLog, g_ccmsPrevPointLog
      ensures LogValid()
      ensures history == [Stamped(tm, pcm, pno, value)] + old(history)
      ensures recent == [Stamped(tm, pcm, pno, value)] + old(recent)
      ensures g_nLogPointCount == if |history| < 100 then |history| else 100
      ensures forall i | 0 <= i < g_nLogPointCount :: g_ccmsPointLog[i] == history[i]
    {
      hide Stamped, Newest;
      var e := Stamped(tm, pcm, pno, value);
      PushTop(e);
      NewestOfLonger(e, history);
      FirstOf(g_ccmsPointLog[..], [e] + Newest(history), |Newest([e] + history)|);
      PrefixTop(e, recent, history);
      if g_nLogPointCount < 100 {
        g_nLogPointCount := g_nLogPointCount + 1;
      }
      history := [e] + history;
      recent := [e] + recent;
      NewestEntries(g_ccmsPointLog[..], g_nLogPointCount, history);
    }

    /** `cfile_restore_value`: the table of values last reported starts afresh. */
    method Restore(g_fExPtbl: array2<real>)
      requires Valid() && g_fExPtbl.Length0 == PCMS && g_fExPtbl.Length1 == TABLE_POINTS
      requires g_fExPtbl != ccms_pre_ptbl
      modifies this`recent, this`base, ccms_pre_ptbl
      ensures Valid() && recent == [] && base == Snapshot(g_fExPtbl) && history == old(history)
      ensures forall p, n | 0 <= p < 32 && 0 <= n < 64 :: base[p][n] == g_fExPtbl[p, n]
    {
      forall p, n | 0 <= p < PCMS && 0 <= n < POINTS {
        ccms_pre_ptbl[p, n] := g_fExPtbl[p, n];
      }
      recent := [];
      base := Snapshot(g_fExPtbl);
    }

    /** `cfile_value_check`: one scan of the point table; the clock is read once per entry. */
    method ValueCheck(g_fExPtbl: array2<real>, clock: nat -> Time) returns (nChangeFlag: nat)
      requires Valid() && g_fExPtbl.Length0 == PCMS && g_fExPtbl.Length1 == TABLE_POINTS
      requires g_fExPtbl != ccms_pre_ptbl
      modifies this`g_nLogPointCount, this`history, this`recent
      modifies g_ccmsPointLog, g_ccmsPrevPointLog, ccms_pre_ptbl
      ensures Valid() && base == old(base)
      ensures var log := ScanLog(Snapshot(g_fExPtbl), old(Snapshot(ccms_pre_ptbl)), clock, PCMS * POINTS);
              nChangeFlag == |log| && history == log + old(history) && recent == log + old(recent)
      ensures forall p, n | 0 <= p < PCMS && 0 <= n < POINTS ::
                ccms_pre_ptbl[p, n] == Followed(g_fExPtbl[p, n], old(ccms_pre_ptbl[p, n]))
      ensures forall p, n | 0 <= p < 32 && 0 <= n < 64 :: -1.0 < g_fExPtbl[p, n] - Replay(base, recent, p, n) < 1.0
    {
      hide Followed, Moved, Replay, LogValid;
      ghost var now := Snapshot(g_fExPtbl);
      ghost var pre := Snapshot(ccms_pre_ptbl);
      nChangeFlag := 0;
      var nPcm := 0;
      while nPcm < PCMS
        invariant 0 <= nPcm <= PCMS && Valid() && base == old(base)
        invariant Logged(ScanLog(now, pre, clock, nPcm * POINTS), nChangeFlag, old(history), old(recent))
        invariant ScannedUpTo(now, pre, nPcm, 0)
      {
        nChangeFlag := ScanRow(g_fExPtbl, nPcm, clock, nChangeFlag, now, pre, old(history), old(recent));
        nPcm := nPcm + 1;
      }
      ScannedIsNear(now, pre);
    }

    /** After a scan every cell is near what the history says was last logged for it. */
    lemma ScannedIsNear(now: Table, pre: Table)
      requires TableValid() && IsTable(now) && IsTable(pre) && ScannedUpTo(now, pre, PCMS, 0)
      ensures forall p, n | 0 <= p < PCMS && 0 <= n < POINTS :: -1.0 < now[p][n] - Replay(base, recent, p, n) < 1.0
    {
      hide Followed, Replay;
      forall p, n | 0 <= p < PCMS && 0 <= n < POINTS
        ensures -1.0 < now[p][n] - Replay(base, recent, p, n) < 1.0
      {
        FollowedIsNear(now[p][n], pre[p][n]);
      }
    }

    /** What the table of last values holds is what replaying the history since the restore gives. */
    lemma TableIsReported()
      requires Valid()
      ensures Snapshot(ccms_pre_ptbl) == Reported(base, recent)
    {
      var t, r := Snapshot(ccms_pre_ptbl), Reported(base, recent);
      forall p | 0 <= p < PCMS
        ensures t[p] == r[p]
      {
      }
    }

    /** The point table as the rest of the gateway leaves it before a scan. */
    method Load(g_fExPtbl: array2<real>, now: Table)
      requires g_fExPtbl.Length0 == PCMS && g_fExPtbl.Length1 == TABLE_POINTS && IsTable(now)
      modifies g_fExPtbl
      ensures Snapshot(g_fExPtbl) == now
    {
      forall p, n | 0 <= p < PCMS && 0 <= n < POINTS {
        g_fExPtbl[p, n] := now[p][n];
      }
      ghost var t := Snapshot(g_fExPtbl);
      forall p | 0 <= p < PCMS
        ensures t[p] == now[p]
      {
      }
    }

    /** One scan of new contents, with the last values as the history gives them. */
    method ScanContents(g_fExPtbl: array2<real>, now: Table, clock: nat -> Time) returns (nChangeFlag: nat)
      requires Valid() && g_fExPtbl.Length0 == PCMS && g_fExPtbl.Length1 == TABLE_POINTS && IsTable(now)
      requires g_fExPtbl != ccms_pre_ptbl
      modifies this`g_nLogPointCount, this`history, this`recent
      modifies g_ccmsPointLog, g_ccmsPrevPointLog, ccms_pre_ptbl, g_fExPtbl
      ensures Valid() && base == old(base)
      ensures Logged(ScanLog(now, old(Reported(base, recent)), clock, PCMS * POINTS), nChangeFlag,
                     old(history), old(recent))
    {
      hide Followed, Moved, ScanLog, Replay, LogValid;
      TableIsReported();
      Load(g_fExPtbl, now);
      nChangeFlag := ValueCheck(g_fExPtbl, clock);
    }

    /** Scans after a restore, one for every content the point table takes on. */
    method Scans(g_fExPtbl: array2<real>, tables: seq<Table>, clock: (nat, nat) -> Time) returns (changes: nat)
      requires Valid() && recent == [] && AreTables(tables)
      requires g_fExPtbl.Length0 == PCMS && g_fExPtbl.Length1 == 256 && g_fExPtbl != ccms_pre_ptbl
      modifies this`g_nLogPointCount, this`history, this`recent
      modifies g_ccmsPointLog, g_ccmsPrevPointLog, ccms_pre_ptbl, g_fExPtbl
      ensures Valid() && base == old(base)
      ensures recent == HistoryOf(base, tables, clock)
      ensures changes == |recent| && history == recent + old(history)
      ensures |tables| > 0 ==>
                forall p, n | 0 <= p < 32 && 0 <= n < 64 ::
                  -1.0 < tables[|tables| - 1][p][n] - Replay(base, recent, p, n) < 1.0
    {
      hide ScanLog, Replay, LogValid, ClockOf, HistoryOf;
      changes := 0;
      var i := 0;
      NoScans(base, clock);
      while i < |tables|
        invariant 0 <= i <= |tables| && Valid() && base == old(base)
        invariant recent == HistoryOf(base, tables[..i], clock)
        invariant changes == |recent| && history == recent + old(history)
      {
        ghost var before := recent;
        var n := ScanContents(g_fExPtbl, tables[i], ClockOf(clock, i));
        NextScan(base, tables, clock, i);
        Regroup(ScanLog(tables[i], Reported(base, before), ClockOf(clock, i), PCMS * POINTS), before, old(history));
        changes := changes + n;
        i := i + 1;
      }
      assert tables[..i] == tables;
      if |tables| > 0 {
        forall p, n | 0 <= p < PCMS && 0 <= n < POINTS
          ensures -1.0 < tables[|tables| - 1][p][n] - Replay(base, recent, p, n) < 1.0
        {
          NeverDrifts(base, tables, clock, p, n);
        }
      }
    }

    /** The entries `log` have been added to both histories and counted. */
    ghost predicate Logged(log: seq<Entry>, count: nat, before: seq<Entry>, recentBefore: seq<Entry>)
      reads this
    {
      count == |log| && history == log + before && recent == log + recentBefore
    }

    /** The inner loop of the scan. */
    method ScanRow(g_fExPtbl: array2<real>, nPcm: nat, clock: nat -> Time, changed: nat, ghost now: Table,
                   ghost pre: Table, ghost before: seq<Entry>, ghost recentBefore: seq<Entry>)
      returns (nChangeFlag: nat)
      requires Valid() && g_fExPtbl.Length0 == PCMS && g_fExPtbl.Length1 == TABLE_POINTS
      requires g_fExPtbl != ccms_pre_ptbl && nPcm < PCMS
      requires IsTable(now) && IsTable(pre) && now == Snapshot(g_fExPtbl)
      requires Logged(ScanLog(now, pre, clock, nPcm * POINTS), changed, before, recentBefore)
      requires ScannedUpTo(now, pre, nPcm, 0)
      modifies this`g_nLogPointCount, this`history, this`recent
      modifies g_ccmsPointLog, g_ccmsPrevPointLog, ccms_pre_ptbl
      ensures Valid() && base == old(base)
      ensures Logged(ScanLog(now, pre, clock, (nPcm + 1) * POINTS), nChangeFlag, before, recentBefore)
      ensures ScannedUpTo(now, pre, nPcm + 1, 0)
    {
      hide ScanLog, Followed, Moved, Stamped, Valid;
      nChangeFlag := changed;
      var nPno := 0;
      while nPno < POINTS
        invariant 0 <= nPno <= POINTS && Valid() && base == old(base)
        invariant Logged(ScanLog(now, pre, clock, nPcm * POINTS + nPno), nChangeFlag, before, recentBefore)
        invariant ScannedUpTo(now, pre, nPcm, nPno)
      {
        nChangeFlag := CheckCell(g_fExPtbl[nPcm, nPno], nPcm, nPno, clock, nChangeFlag);
        ScanStep(now, pre, clock, nPcm, nPno);
        nPno := nPno + 1;
      }
    }

    /** The table holds the new values for the cells before (p, n) in row order, the old ones from there. */
    ghost predicate ScannedUpTo(now: Table, pre: Table, p: nat, n: nat)
      requires IsTable(now) && IsTable(pre)
      reads ccms_pre_ptbl
    {
      ccms_pre_ptbl.Length0 == PCMS && ccms_pre_ptbl.Length1 == POINTS &&
      forall q, m | 0 <= q < PCMS && 0 <= m < POINTS ::
        ccms_pre_ptbl[q, m] == if q < p || (q == p && m < n) then Followed(now[q][m], pre[q][m]) else pre[q][m]
    }

    /** The body of the scan. */
    method CheckCell(now: real, nPcm: nat, nPno: nat, clock: nat -> Time, changed: nat) returns (nChangeFlag: nat)
      requires Valid() && nPcm < PCMS && nPno < POINTS
      modifies this`g_nLogPointCount, this`history, this`recent
      modifies g_ccmsPointLog, g_ccmsPrevPointLog, ccms_pre_ptbl
      ensures Valid()
      ensures var log := if Moved(now, old(ccms_pre_ptbl[nPcm, nPno]))
                         then [Stamped(clock(changed), nPcm, nPno, now)] else [];
              nChangeFlag == changed + |log| && history == log + old(history) && recent == log + old(recent)
      ensures forall q, m | 0 <= q < PCMS && 0 <= m < POINTS ::
                ccms_pre_ptbl[q, m] == if q == nPcm && m == nPno
                                       then Followed(now, old(ccms_pre_ptbl[q, m])) else old(ccms_pre_ptbl[q, m])
    {
      nChangeFlag := changed;
      if now != ccms_pre_ptbl[nPcm, nPno] {
        var fDiffValue;
        if now > ccms_pre_ptbl[nPcm, nPno] {
          fDiffValue := now - ccms_pre_ptbl[nPcm, nPno];
        } else {
          fDiffValue := ccms_pre_ptbl[nPcm, nPno] - now;
        }
        if fDiffValue >= 1.0 {
          nChangeFlag := nChangeFlag + 1;
          ccms_pre_ptbl[nPcm, nPno] := now;
          PutLog(clock(changed), nPcm, nPno, ccms_pre_ptbl[nPcm, nPno]);
        }
      }
    }
  }

  lemma NewestOfLonger(e: Entry, history: seq<Entry>)
    ensures |Newest(history)| <= LOG_LIMIT
    ensures |Newest([e] + history)| == if |Newest(history)| < LOG_LIMIT then |Newest(history)| + 1 else LOG_LIMIT
    ensures Newest([e] + history) == ([e] + Newest(history))[..|Newest([e] + history)|]
  {
  }

  lemma OnTop(log: seq<Entry>, e: Entry, rest: seq<Entry>)
    requires |rest| < |log| && log[0] == e && log[1..|rest| + 1] == rest
    ensures log[..|rest| + 1] == [e] + rest
  {
    assert log[..|rest| + 1] == [log[0]] + log[1..|rest| + 1];
  }

  lemma NewestEntries(log: seq<Entry>, n: nat, history: seq<Entry>)
    requires n <= |log| && log[..n] == Newest(history)
    ensures n == if |history| < 100 then |history| else 100
    ensures forall i | 0 <= i < n :: log[i] == history[i]
  {
    assert forall i | 0 <= i < n :: log[i] == log[..n][i];
  }

  lemma FirstOf(log: seq<Entry>, top: seq<Entry>, n: nat)
    requires n <= |top| <= |log| && log[..|top|] == top
    ensures log[..n] == top[..n]
  {
    assert log[..n] == log[..|top|][..n];
  }

  lemma PrefixTop(e: Entry, a: seq<Entry>, b: seq<Entry>)
    requires a <= b
    ensures [e] + a <= [e] + b
  {
  }

  lemma ScanStep(now: Table, pre: Table, clock: nat -> Time, p: nat, n: nat)
    requires IsTable(now) && IsTable(pre) && p < PCMS && n < POINTS
    ensures var log := ScanLog(now, pre, clock, p * POINTS + n);
            ScanLog(now, pre, clock, p * POINTS + n + 1) ==
            (if Moved(now[p][n], pre[p][n]) then [Stamped(clock(|log|), p, n, now[p][n])] else []) + log
  {
    assert (p * POINTS + n) / POINTS == p && (p * POINTS + n) % POINTS == n;
  }

  /** The scanned part of a point table. */
  ghost function Snapshot(t: array2<real>): (s: Table)
    requires t.Length0 == PCMS && t.Length1 >= POINTS
    reads t
    ensures IsTable(s)
    ensures forall p, n | 0 <= p < PCMS && 0 <= n < POINTS :: s[p][n] == t[p, n]
  {
    seq(PCMS, p requires 0 <= p < PCMS reads t =>
      seq(POINTS, n requires 0 <= n < POINTS && 0 <= p < PCMS reads t => t[p, n]))
  }

  // ---------------------------------------------------------------- whole runs

  lemma ReplayTop(base: Table, history: seq<Entry>, e: Entry, p: nat, n: nat)
    requires p < |base| && n < |base[p]|
    ensures Replay(base, [e] + history, p, n) ==
            if e.wPcm == p && e.wPno == n then e.fValue else Replay(base, history, p, n)
  {
    assert ([e] + history)[1..] == history;
  }

  lemma StampedCell(tm: Time, p: nat, n: nat, value: real)
    requires p < PCMS && n < POINTS
    ensures Stamped(tm, p, n, value).wPcm == p && Stamped(tm, p, n, value).wPno == n
    ensures Stamped(tm, p, n, value).fValue == value
  {
  }

  lemma CellIndex(p: nat, n: nat, k: nat)
    requires n < POINTS
    ensures p * POINTS + n == k <==> p == k / POINTS && n == k % POINTS
  {
  }

  /** Replaying what a scan logs on top of an earlier history moves exactly the scanned cells. */
  lemma {:induction false} ReplayScan(base: Table, history: seq<Entry>, now: Table, pre: Table,
                                      clock: nat -> Time, k: nat, p: nat, n: nat)
    requires IsTable(base) && IsTable(now) && IsTable(pre) && k <= PCMS * POINTS && p < PCMS && n < POINTS
    requires pre[p][n] == Replay(base, history, p, n)
    ensures Replay(base, ScanLog(now, pre, clock, k) + history, p, n) ==
            if p * POINTS + n < k then Followed(now[p][n], pre[p][n]) else pre[p][n]
  {
    hide Stamped, Replay;
    if k == 0 {
      assert ScanLog(now, pre, clock, 0) + history == history;
    } else {
      ReplayScan(base, history, now, pre, clock, k - 1, p, n);
      CellIndex(p, n, k - 1);
      var q, m := (k - 1) / POINTS, (k - 1) % POINTS;
      var log := ScanLog(now, pre, clock, k - 1);
      var e := Stamped(clock(|log|), q, m, now[q][m]);
      StampedCell(clock(|log|), q, m, now[q][m]);
      ReplayTop(base, log + history, e, p, n);
      assert [e] + log + history == [e] + (log + history);
    }
  }

  /** The table of values last reported, as the history implies it. */
  ghost function Reported(base: Table, history: seq<Entry>): (t: Table)
    requires IsTable(base)
    ensures IsTable(t)
    ensures forall p, n | 0 <= p < PCMS && 0 <= n < POINTS :: t[p][n] == Replay(base, history, p, n)
  {
    seq(PCMS, p requires 0 <= p < PCMS =>
      seq(POINTS, n requires 0 <= n < POINTS && 0 <= p < PCMS => Replay(base, history, p, n)))
  }

  ghost predicate AreTables(tables: seq<Table>) {
    forall i | 0 <= i < |tables| :: IsTable(tables[i])
  }

  /** The clock readings of the n-th scan. */
  function ClockOf(clock: (nat, nat) -> Time, n: nat): nat -> Time {
    (k: nat) => clock(n, k)
  }

  /** The history after scanning a sequence of table contents, starting from `base`. */
  ghost function HistoryOf(base: Table, tables: seq<Table>, clock: (nat, nat) -> Time): seq<Entry>
    requires IsTable(base) && AreTables(tables)
  {
    if |tables| == 0 then []
    else
      var n := |tables| - 1;
      var history := HistoryOf(base, tables[..n], clock);
      ScanLog(tables[n], Reported(base, history), ClockOf(clock, n), PCMS * POINTS) + history
  }

  lemma Regroup(a: seq<Entry>, b: seq<Entry>, c: seq<Entry>)
    ensures a + b + c == a + (b + c)
  {
  }

  lemma NoScans(base: Table, clock: (nat, nat) -> Time)
    requires IsTable(base)
    ensures HistoryOf(base, [], clock) == []
  {
  }

  lemma NextScan(base: Table, tables: seq<Table>, clock: (nat, nat) -> Time, i: nat)
    requires IsTable(base) && AreTables(tables) && i < |tables|
    ensures var history := HistoryOf(base, tables[..i], clock);
            HistoryOf(base, tables[..i + 1], clock) ==
            ScanLog(tables[i], Reported(base, history), ClockOf(clock, i), PCMS * POINTS) + history
  {
    assert tables[..i + 1][..i] == tables[..i];
  }

  /**
   However the point table moves between scans, after each scan every cell is within less than
   1 of its last logged value, or of its startup value when it was never logged.
   */
  lemma NeverDrifts(base: Table, tables: seq<Table>, clock: (nat, nat) -> Time, p: nat, n: nat)
    requires IsTable(base) && |tables| > 0 && AreTables(tables)
    requires p < PCMS && n < POINTS
    ensures -1.0 < tables[|tables| - 1][p][n] - Replay(base, HistoryOf(base, tables, clock), p, n) < 1.0
  {
    hide Followed, Moved;
    var last := |tables| - 1;
    var history := HistoryOf(base, tables[..last], clock);
    var pre := Reported(base, history);
    ReplayScan(base, history, tables[last], pre, ClockOf(clock, last), PCMS * POINTS, p, n);
    FollowedIsNear(tables[last][p][n], pre[p][n]);
  }

  /** The dead band in numbers. */
  lemma DeadBand(now: real, pre: real)
    ensures Moved(now, pre) <==> now - pre >= 1.0 || pre - now >= 1.0
  {
  }

  /** A scan logs nothing exactly when no cell is off by 1 or more. */
  lemma {:induction false} QuietScanIff(now: Table, pre: Table, clock: nat -> Time, k: nat)
    requires IsTable(now) && IsTable(pre) && k <= PCMS * POINTS
    ensures |ScanLog(now, pre, clock, k)| == 0 <==>
            forall p, n | 0 <= p < 32 && 0 <= n < 64 && 64 * p + n < k :: -1.0 < now[p][n] - pre[p][n] < 1.0
  {
    hide Moved, Stamped;
    if k > 0 {
      QuietScanIff(now, pre, clock, k - 1);
      var q, m := (k - 1) / POINTS, (k - 1) % POINTS;
      CellIndex(q, m, k - 1);
      DeadBand(now[q][m], pre[q][m]);
    }
  }

  /** An entry of a scan over the first `k` cells. */
  ghost predicate IsMove(e: Entry, now: Table, pre: Table, tm: Time, k: nat)
    requires IsTable(now) && IsTable(pre)
  {
    && e.wPcm < 32 && e.wPno < 64 && 64 * e.wPcm + e.wPno < k
    && e == Stamped(tm, e.wPcm, e.wPno, now[e.wPcm][e.wPno])
    && (now[e.wPcm][e.wPno] - pre[e.wPcm][e.wPno] >= 1.0 || pre[e.wPcm][e.wPno] - now[e.wPcm][e.wPno] >= 1.0)
  }

  /** The cell of an entry in row order. */
  function Place(e: Entry): nat {
    64 * e.wPcm + e.wPno
  }

  /** Only moves are logged, each with its own reading of the clock, in descending row order. */
  ghost predicate AreMoves(log: seq<Entry>, now: Table, pre: Table, clock: nat -> Time, k: nat)
    requires IsTable(now) && IsTable(pre)
  {
    && (forall i | 0 <= i < |log| :: IsMove(log[i], now, pre, clock(|log| - 1 - i), k))
    && (forall i, j | 0 <= i < j < |log| :: Place(log[i]) > Place(log[j]))
  }

  lemma AreMovesStep(log: seq<Entry>, now: Table, pre: Table, clock: nat -> Time, k: nat, e: Entry)
    requires IsTable(now) && IsTable(pre) && AreMoves(log, now, pre, clock, k)
    ensures AreMoves(log, now, pre, clock, k + 1)
    ensures IsMove(e, now, pre, clock(|log|), k + 1) && Place(e) == k ==>
              AreMoves([e] + log, now, pre, clock, k + 1)
  {
    hide Stamped;
    forall i | 0 <= i < |log|
      ensures IsMove(log[i], now, pre, clock(|log| - 1 - i), k + 1) && Place(log[i]) < k
    {
      assert IsMove(log[i], now, pre, clock(|log| - 1 - i), k);
    }
    if IsMove(e, now, pre, clock(|log|), k + 1) && Place(e) == k {
      var longer := [e] + log;
      forall i | 0 <= i < |longer|
        ensures IsMove(longer[i], now, pre, clock(|longer| - 1 - i), k + 1)
      {
        if i > 0 {
          assert longer[i] == log[i - 1] && |longer| - 1 - i == |log| - 1 - (i - 1);
        }
      }
    }
  }

  /**
   What a scan logs: only cells off by 1 or more, each with its new value and its own reading of
   the clock, and the cell that comes later in row order above the earlier one.
   */
  lemma {:induction false} ScanLogEntries(now: Table, pre: Table, clock: nat -> Time, k: nat)
    requires IsTable(now) && IsTable(pre) && k <= PCMS * POINTS
    ensures AreMoves(ScanLog(now, pre, clock, k), now, pre, clock, k)
  {
    hide Moved, Stamped, AreMoves;
    if k == 0 {
      NoMoves(now, pre, clock);
    } else {
      ScanLogEntries(now, pre, clock, k - 1);
      var q, m := (k - 1) / POINTS, (k - 1) % POINTS;
      var log := ScanLog(now, pre, clock, k - 1);
      var e := Stamped(clock(|log|), q, m, now[q][m]);
      CellIndex(q, m, k - 1);
      DeadBand(now[q][m], pre[q][m]);
      StampedCell(clock(|log|), q, m, now[q][m]);
      AreMovesStep(log, now, pre, clock, k - 1, e);
    }
  }

  lemma NoMoves(now: Table, pre: Table, clock: nat -> Time)
    requires IsTable(now) && IsTable(pre)
    ensures AreMoves([], now, pre, clock, 0)
  {
  }

  lemma NothingToLog(base: Table, history: seq<Entry>, now: Table, clock: nat -> Time)
    requires IsTable(base) && IsTable(now)
    requires forall p, n | 0 <= p < PCMS && 0 <= n < POINTS :: -1.0 < now[p][n] - Replay(base, history, p, n) < 1.0
    ensures ScanLog(now, Reported(base, history), clock, PCMS * POINTS) + history == history
  {
    hide Moved, Replay;
    QuietScanIff(now, Reported(base, history), clock, PCMS * POINTS);
    assert [] + history == history;
  }

  /** Scanning an unchanged table again logs nothing. */
  lemma SecondScanIsQuiet(base: Table, tables: seq<Table>, clock: (nat, nat) -> Time)
    requires IsTable(base) && |tables| > 1 && AreTables(tables)
    requires tables[|tables| - 1] == tables[|tables| - 2]
    ensures HistoryOf(base, tables, clock) == HistoryOf(base, tables[..|tables| - 1], clock)
  {
    hide ScanLog, Replay, ClockOf;
    var last := |tables| - 1;
    forall p, n | 0 <= p < PCMS && 0 <= n < POINTS
      ensures -1.0 < tables[last][p][n] - Replay(base, HistoryOf(base, tables[..last], clock), p, n) < 1.0
    {
      NeverDrifts(base, tables[..last], clock, p, n);
    }
    NothingToLog(base, HistoryOf(base, tables[..last], clock), tables[last], ClockOf(clock, last));
  }
}
