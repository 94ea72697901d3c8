/**
 The idle task's accounting (tasks/idle.c): how much of the time since the last report was
 not spent idle. The timer readings are parameters; they never go backwards.
 */
module Idle {
  import Numerals

  const REPORT_PERIOD: int := 50

  /** A stretch of time in which other tasks ran. */
  datatype Interval = Interval(from: int, to: int)

  /** The intervals follow one another without overlap inside lo..hi. */
  ghost predicate Within(busy: seq<Interval>, lo: int, hi: int) {
    if busy == [] then lo <= hi
    else
      var last := busy[|busy| - 1];
      Within(busy[..|busy| - 1], lo, last.from) && last.from <= last.to <= hi
  }

  ghost function Total(busy: seq<Interval>): (t: int) {
    if busy == [] then 0 else Total(busy[..|busy| - 1]) + busy[|busy| - 1].to - busy[|busy| - 1].from
  }

  lemma {:induction false} TotalFits(busy: seq<Interval>, lo: int, hi: int)
    requires Within(busy, lo, hi)
    ensures 0 <= Total(busy) <= hi - lo
  {
    if busy == [] {
    } else {
      TotalFits(busy[..|busy| - 1], lo, busy[|busy| - 1].from);
    }
  }

  lemma Extend(busy: seq<Interval>, lo: int, from: int, to: int)
    requires Within(busy, lo, from) && from <= to
    ensures Within(busy + [Interval(from, to)], lo, to)
    ensures Total(busy + [Interval(from, to)]) == Total(busy) + (to - from)
  {
    assert (busy + [Interval(from, to)])[..|busy|] == busy;
  }

  lemma NothingCounted(lo: int, hi: int)
    requires lo <= hi
    ensures Within([], lo, hi) && Total([]) == 0
  {
  }

  lemma WithinLater(busy: seq<Interval>, lo: int, hi: int, hi': int)
    requires Within(busy, lo, hi) && hi <= hi'
    ensures Within(busy, lo, hi')
  {
  }

  /** The printed percentage, with both integer divisions. */
  function Percentage(execution: nat, window: nat): (p: nat)
    requires window >= 100
  {
    execution / (window / 100)
  }

  /** A window is never over-reported when what its hundredth leaves over is less than that hundredth. */
  predicate Fair(window: nat) {
    window % 100 < window / 100
  }

  /**
   Whatever part of the window was busy, the report is at most 100, exactly on these windows. 9900
   counts are enough, 9999 are not, and from 10000 counts on every window is.
   */
  lemma PercentageBound(window: nat)
    requires window >= 100
    ensures (forall e: nat :: e <= window ==> Percentage(e, window) <= 100) <==> Fair(window)
  {
    var q := window / 100;
    forall e: nat ensures Percentage(e, window) <= 100 <==> e < 101 * q {
      QuotientBelow(e, q, 101);
    }
    assert Percentage(window, window) <= 100 <==> window < 101 * q;
  }

  lemma QuotientBelow(e: nat, q: int, n: int)
    requires q > 0
    ensures e / q < n <==> e < n * q
  {
    var k, r := e / q, e % q;
    assert e == k * q + r;
    if k < n {
      Numerals.Monotone(q, k + 1, n);
    } else {
      Numerals.Monotone(q, n, k);
    }
  }

  lemma TenThousandCountsSuffice(window: nat)
    ensures window >= 10000 ==> Fair(window)
    ensures Fair(9900) && !Fair(9999) && Percentage(9999, 9999) == 101
  {
  }

  /** The two divisions of the report. */
  method Report(execution: nat, window: nat) returns (percentage: nat)
    requires window >= 100 && execution <= window
    ensures percentage == Percentage(execution, window)
    ensures Fair(window) ==> percentage <= 100
  {
    percentage := execution / (window / 100);
    PercentageBound(window);
  }

  class IdleTask {
    var executionTime: int
    var enterTime: int
    var lastExitTime: int
    var beginTime: int
    var idleCount: int
    ghost var busy: seq<Interval>  // the stretches counted since the last report

    /** Between leaving idle and entering it again. */
    ghost predicate Outside()
      reads this
    {
      executionTime == Total(busy) && Within(busy, beginTime, lastExitTime)
    }

    /** While idle. */
    ghost predicate Inside()
      reads this
    {
      executionTime == Total(busy) && Within(busy, beginTime, beginTime + Span())
    }

    /** The part of the window that has been accounted for. */
    ghost function Span(): (n: int)
      reads this
    {
      if enterTime < beginTime then 0 else enterTime - beginTime
    }

    /** idle_setup on the initial values of the counters */
    constructor (bootTime: int)
      ensures Outside() && busy == [] && beginTime == lastExitTime == bootTime && idleCount == 0
    {
      executionTime, enterTime := 0, 0;
      idleCount := 0;
      lastExitTime := bootTime;
      beginTime := bootTime;
      busy := [];
    }

    /**
     idle_after_enter, with the two timer readings it takes; `report` is the printed percentage,
     or -1. The source divides by the hundredth of the window, which must not be zero.
     */
    method AfterEnter(now: int, later: int) returns (report: int)
      requires Outside() && lastExitTime <= now <= later
      requires idleCount % REPORT_PERIOD == 0 ==> now - beginTime >= 100
      modifies this
      ensures Inside() && enterTime == now && idleCount == old(idleCount) + 1 && lastExitTime == old(lastExitTime)
      ensures old(idleCount) % REPORT_PERIOD != 0 ==>
                report == -1 && beginTime == old(beginTime) && busy == old(busy) + [Interval(old(lastExitTime), now)]
      ensures old(idleCount) % REPORT_PERIOD == 0 ==> busy == [] && beginTime == later
      ensures old(idleCount) % REPORT_PERIOD == 0 ==>
                var counted := old(busy) + [Interval(old(lastExitTime), now)];
                && Within(counted, old(beginTime), now) && 0 <= Total(counted)
                && report == Percentage(Total(counted), now - old(beginTime))
                && (Fair(now - old(beginTime)) ==> report <= 100)
    {
      hide Percentage, Fair, Within, Total;
      Extend(busy, beginTime, lastExitTime, now);
      enterTime := now;
      executionTime := executionTime + (enterTime - lastExitTime);
      busy := busy + [Interval(lastExitTime, now)];
      TotalFits(busy, beginTime, now);
      report := -1;
      if idleCount % REPORT_PERIOD == 0 {
        report := Report(executionTime, enterTime - beginTime);
        executionTime := 0;
        beginTime := later;
        busy := [];
        NothingCounted(later, later);
      }
      idleCount := idleCount + 1;
    }

    /** idle_before_exit */
    method BeforeExit(now: int)
      requires Inside() && enterTime <= now && beginTime <= now
      modifies this`lastExitTime
      ensures Outside() && lastExitTime == now
    {
      WithinLater(busy, beginTime, beginTime + Span(), now);
      lastExitTime := now;
    }
  }

  /** The readings one pass through the idle loop takes: on entering, for a new window, on leaving. */
  datatype Pass = Pass(enter: int, begin: int, leave: int)

  /** The timer never goes backwards. */
  ghost predicate MonotoneTimer(bootTime: int, passes: seq<Pass>) {
    forall i :: 0 <= i < |passes| ==>
      LastExit(bootTime, passes, i) <= passes[i].enter <= passes[i].begin <= passes[i].leave
  }

  function LastExit(bootTime: int, passes: seq<Pass>, i: nat): (t: int)
    requires i <= |passes|
  {
    if i == 0 then bootTime else passes[i - 1].leave
  }

  /** When the window that pass i belongs to began. */
  function WindowStart(bootTime: int, passes: seq<Pass>, i: nat): (t: int)
    requires i <= |passes|
  {
    if i == 0 then bootTime
    else if (i - 1) % REPORT_PERIOD == 0 then passes[i - 1].begin
    else WindowStart(bootTime, passes, i - 1)
  }

  lemma WindowStartsAtBoot(bootTime: int, passes: seq<Pass>)
    ensures WindowStart(bootTime, passes, 0) == bootTime
  {
  }

  lemma NextWindowStart(bootTime: int, passes: seq<Pass>, i: nat)
    requires i < |passes|
    ensures WindowStart(bootTime, passes, i + 1) ==
            if i % REPORT_PERIOD == 0 then passes[i].begin else WindowStart(bootTime, passes, i)
  {
  }

  /** The window whose end pass i reports. */
  function Window(bootTime: int, passes: seq<Pass>, i: nat): (w: int)
    requires i < |passes|
  {
    passes[i].enter - WindowStart(bootTime, passes, i)
  }

  /** The time other tasks ran since that window began: the sum of the stretches between leaving idle and entering it. */
  function Busy(bootTime: int, passes: seq<Pass>, i: nat): (t: int)
    requires i < |passes|
  {
    (if i == 0 || (i - 1) % REPORT_PERIOD == 0 then 0 else Busy(bootTime, passes, i - 1)) +
    passes[i].enter - LastExit(bootTime, passes, i)
  }

  /** What is counted before pass i. */
  ghost function Carried(bootTime: int, passes: seq<Pass>, i: nat): (t: int)
    requires i <= |passes|
  {
    if i == 0 || (i - 1) % REPORT_PERIOD == 0 then 0 else Busy(bootTime, passes, i - 1)
  }

  lemma BusyNext(bootTime: int, passes: seq<Pass>, i: nat)
    requires i < |passes|
    ensures Busy(bootTime, passes, i) == Carried(bootTime, passes, i) + passes[i].enter - LastExit(bootTime, passes, i)
    ensures Carried(bootTime, passes, i + 1) == if i % REPORT_PERIOD == 0 then 0 else Busy(bootTime, passes, i)
    ensures Carried(bootTime, passes, 0) == 0
  {
  }

  /**
   Pass 0 and every 50th after it report the busy time of their window, which lies within the window,
   divided by the window's hundredth; on a fair window that is at most 100. No other pass reports.
   */
  ghost predicate ReportedRight(bootTime: int, passes: seq<Pass>, i: nat, report: int)
    requires i < |passes| && (i % REPORT_PERIOD == 0 ==> Window(bootTime, passes, i) >= 100)
  {
    if i % REPORT_PERIOD != 0 then report == -1
    else
      var counted, window := Busy(bootTime, passes, i), Window(bootTime, passes, i);
      && 0 <= counted <= window
      && report == counted / (window / 100)
      && (Fair(window) ==> 0 <= report <= 100)
  }

  /** The task has gone through i passes. */
  ghost predicate AfterPasses(idle: IdleTask, bootTime: int, passes: seq<Pass>, i: nat)
    requires i <= |passes|
    reads idle
  {
    && idle.Outside() && idle.idleCount == i
    && idle.lastExitTime == LastExit(bootTime, passes, i)
    && idle.beginTime == WindowStart(bootTime, passes, i)
    && Total(idle.busy) == Carried(bootTime, passes, i)
  }

  /** One pass through the idle loop. */
  method OnePass(idle: IdleTask, bootTime: int, passes: seq<Pass>, i: nat) returns (report: int)
    requires i < |passes| && MonotoneTimer(bootTime, passes) && AfterPasses(idle, bootTime, passes, i)
    requires i % REPORT_PERIOD == 0 ==> Window(bootTime, passes, i) >= 100
    modifies idle
    ensures AfterPasses(idle, bootTime, passes, i + 1)
    ensures ReportedRight(bootTime, passes, i, report)
  {
    hide Fair, WindowStart, Busy, Within, Carried, Total;
    var pass := passes[i];
    NextWindowStart(bootTime, passes, i);
    BusyNext(bootTime, passes, i);
    TotalFits(idle.busy, idle.beginTime, idle.lastExitTime);
    Extend(idle.busy, idle.beginTime, idle.lastExitTime, pass.enter);
    TotalFits(idle.busy + [Interval(idle.lastExitTime, pass.enter)], idle.beginTime, pass.enter);
    NothingCounted(0, 0);
    report := idle.AfterEnter(pass.enter, pass.begin);
    idle.BeforeExit(pass.leave);
  }

  /** The idle loop. */
  method Loop(bootTime: int, passes: seq<Pass>) returns (reports: seq<int>)
    requires MonotoneTimer(bootTime, passes)
    requires forall i :: 0 <= i < |passes| && i % REPORT_PERIOD == 0 ==> Window(bootTime, passes, i) >= 100
    ensures |reports| == |passes|
    ensures forall i :: 0 <= i < |passes| ==> ReportedRight(bootTime, passes, i, reports[i])
  {
    hide WindowStart, Busy, Window, ReportedRight, MonotoneTimer;
    WindowStartsAtBoot(bootTime, passes);
    var idle := new IdleTask(bootTime);
    reports := [];
    while |reports| < |passes|
      invariant |reports| <= |passes| && fresh(idle) && AfterPasses(idle, bootTime, passes, |reports|)
      invariant forall i :: 0 <= i < |reports| ==> ReportedRight(bootTime, passes, i, reports[i])
    {
      var report := OnePass(idle, bootTime, passes, |reports|);
      reports := reports + [report];
    }
  }
}
