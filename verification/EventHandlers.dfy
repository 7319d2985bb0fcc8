/** The time checks of the MissionPass, Attendance and Hunting handlers, applied to the
  * windows of EventUpdateChecker::Check for one table row. */
module EventHandlers {
  import opened PacketDefs
  import opened UserEvents
  import opened TickWindows

  // StartCondition::Time and CloseCondition::Time.
  const TIME_CONDITION: nat := 1

  // The attendance members of EventType.
  const ATTENDANCE_TYPES: set<nat> := {101, 102, 103, 110, 111, 112, 120, 121}

  datatype TableUserEvent = TableUserEvent(eventType: nat, startCondition: nat, closeCondition: nat,
                                           startTime: int, closeTime: int, maxStep: int)

  datatype EventContext = EventContext(table: Option<TableUserEvent>, info: Option<UserEventInfo>,
                                       window: Window, resetTime: int)

  datatype HandleResult = NoResult | Continue | Notified | Reset

  datatype Handler = MissionPass | Attendance | Hunting

  predicate Live(info: Option<UserEventInfo>) {
    info.Some? && !info.value.deleted
  }

  // ----- MissionPassEventHandler -----

  function MissionStart(tbl: TableUserEvent, ctx: EventContext): HandleResult {
    if tbl.startCondition != TIME_CONDITION then NoResult
    else if !Contains(ctx.window, tbl.startTime) then NoResult
    else if ctx.info.None? then Notified
    else if ctx.info.value.deleted then Notified
    else NoResult
  }

  function MissionClose(tbl: TableUserEvent, ctx: EventContext): HandleResult {
    if tbl.closeCondition != TIME_CONDITION then NoResult
    else if !Contains(ctx.window, tbl.closeTime) then NoResult
    else if ctx.info.Some? && !ctx.info.value.deleted then Notified
    else NoResult
  }

  function MissionTimeCheck(ctx: EventContext): HandleResult {
    if ctx.table.None? then NoResult
    else
      var start := MissionStart(ctx.table.value, ctx);
      if start != NoResult then start else MissionClose(ctx.table.value, ctx)
  }

  // ----- AttendanceEventHandler -----

  predicate IsEventStarted(tbl: TableUserEvent, ctx: EventContext) {
    tbl.startCondition == TIME_CONDITION && Contains(ctx.window, tbl.startTime)
  }

  predicate IsEventClosed(tbl: TableUserEvent, ctx: EventContext) {
    tbl.closeCondition == TIME_CONDITION && Contains(ctx.window, tbl.closeTime)
  }

  function ProcessDailyReset(tbl: TableUserEvent, ctx: EventContext): HandleResult {
    if ctx.info.None? then NoResult
    else if && tbl.eventType in ATTENDANCE_TYPES
            && !ctx.info.value.deleted
            && ctx.info.value.step < tbl.maxStep
            && ctx.resetTime > 0
            && ctx.resetTime <= ctx.window.now
    then Reset
    else NoResult
  }

  function AttendanceTimeCheck(ctx: EventContext): HandleResult {
    if ctx.table.None? then NoResult
    else
      var (tbl, info) := (ctx.table.value, ctx.info);
      if IsEventStarted(tbl, ctx) && info.Some? && (info.value.deleted || info.value.step > 0) then
        if info.value.lastUpdate > tbl.startTime && info.value.step > 0 then Continue else Notified
      else if IsEventClosed(tbl, ctx) && info.Some? && !info.value.deleted then Notified
      else ProcessDailyReset(tbl, ctx)
  }

  // ----- HuntingEventHandler -----

  predicate IsWithinEventPeriod(tbl: TableUserEvent, ctx: EventContext) {
    ctx.window.now >= tbl.startTime && ctx.window.now <= tbl.closeTime
  }

  function HuntingTimeCheck(ctx: EventContext): HandleResult {
    if ctx.table.None? then NoResult
    else
      var tbl := ctx.table.value;
      if !IsWithinEventPeriod(tbl, ctx) then NoResult
      else if Contains(ctx.window, tbl.startTime) then Notified
      else if Contains(ctx.window, tbl.closeTime) then Notified
      else if ctx.info.None? then Continue
      else if ctx.info.value.deleted then Continue
      else NoResult
  }

  function OnTimeCheck(h: Handler, ctx: EventContext): HandleResult {
    match h
    case MissionPass => MissionTimeCheck(ctx)
    case Attendance => AttendanceTimeCheck(ctx)
    case Hunting => HuntingTimeCheck(ctx)
  }

  // ----- The handlers' answers, from the fields of the context -----

  /** A mission pass notifies of a timed start if the user has no live record, and of a timed
    * close if it has one; otherwise it answers nothing. */
  lemma MissionPassExactly(ctx: EventContext)
    ensures var r := OnTimeCheck(MissionPass, ctx);
      && (ctx.table.None? ==> r == NoResult)
      && (ctx.table.Some? ==>
            var tbl, w, info := ctx.table.value, ctx.window, ctx.info;
            r == if || (tbl.startCondition == 1 && w.last < tbl.startTime <= w.now
                        && (info.None? || info.value.deleted))
                    || (tbl.closeCondition == 1 && w.last < tbl.closeTime <= w.now
                        && info.Some? && !info.value.deleted)
                 then Notified else NoResult)
  {
  }

  /** An attendance event with a record restarts at a timed start - unless it has advanced
    * since - closes at a timed close if the record is live, and is else reset once a day. */
  lemma AttendanceExactly(ctx: EventContext)
    ensures var r := OnTimeCheck(Attendance, ctx);
      && (ctx.table.None? || ctx.info.None? ==> r == NoResult)
      && (ctx.table.Some? && ctx.info.Some? ==>
            var tbl, w, info := ctx.table.value, ctx.window, ctx.info.value;
            var starts := && tbl.startCondition == 1 && w.last < tbl.startTime <= w.now
                          && (info.deleted || info.step > 0);
            var advanced := info.lastUpdate > tbl.startTime && info.step > 0;
            var closes := tbl.closeCondition == 1 && w.last < tbl.closeTime <= w.now && !info.deleted;
            var resets := && tbl.eventType in {101, 102, 103, 110, 111, 112, 120, 121} && !info.deleted
                          && info.step < tbl.maxStep && 0 < ctx.resetTime <= w.now;
            r == if starts && advanced then Continue
                 else if starts || closes then Notified
                 else if resets then Reset
                 else NoResult)
  {
  }

  /** A hunting event answers only within its period: it notifies of an edge in the window,
    * and else asks to go on for a user without a live record. */
  lemma HuntingExactly(ctx: EventContext)
    ensures var r := OnTimeCheck(Hunting, ctx);
      && (ctx.table.None? ==> r == NoResult)
      && (ctx.table.Some? ==>
            var tbl, w, info := ctx.table.value, ctx.window, ctx.info;
            r == if w.now < tbl.startTime || tbl.closeTime < w.now then NoResult
                 else if w.last < tbl.startTime || (w.last < tbl.closeTime && tbl.closeTime == w.now) then Notified
                 else if info.None? || info.value.deleted then Continue
                 else NoResult)
  {
  }

  // ----- A row over a run of checks -----

  /** The context that Check builds for a window: reset_time is never set. */
  function ContextOf(tbl: TableUserEvent, w: Window, info: Option<UserEventInfo>): EventContext {
    EventContext(Some(tbl), info, w, 0)
  }

  /** The start edge notifies: the window holds the start time and the record calls for it. */
  predicate StartNotifies(h: Handler, tbl: TableUserEvent, w: Window, info: Option<UserEventInfo>) {
    && Contains(w, tbl.startTime)
    && match h {
         case MissionPass => tbl.startCondition == TIME_CONDITION && !Live(info)
         case Attendance =>
           && tbl.startCondition == TIME_CONDITION && info.Some?
           && (if info.value.step > 0 then info.value.lastUpdate <= tbl.startTime else info.value.deleted)
         case Hunting => w.now <= tbl.closeTime
       }
  }

  /** The close edge notifies. A start edge in the same window can take its place. */
  predicate CloseNotifies(h: Handler, tbl: TableUserEvent, w: Window, info: Option<UserEventInfo>) {
    && Contains(w, tbl.closeTime)
    && match h {
         case MissionPass => tbl.closeCondition == TIME_CONDITION && Live(info)
         case Attendance =>
           && tbl.closeCondition == TIME_CONDITION && Live(info)
           && !(tbl.startCondition == TIME_CONDITION && Contains(w, tbl.startTime) && info.value.step > 0)
         case Hunting => tbl.startTime <= w.last && w.now == tbl.closeTime
       }
  }

  function Notifications(h: Handler, tbl: TableUserEvent, ws: seq<Window>, infos: seq<Option<UserEventInfo>>): nat
    requires |ws| == |infos|
  {
    if ws == [] then 0
    else
      (if OnTimeCheck(h, ContextOf(tbl, ws[0], infos[0])) == Notified then 1 else 0) +
      Notifications(h, tbl, ws[1..], infos[1..])
  }

  function StartNotifications(h: Handler, tbl: TableUserEvent, ws: seq<Window>, infos: seq<Option<UserEventInfo>>): nat
    requires |ws| == |infos|
  {
    if ws == [] then 0
    else
      (if StartNotifies(h, tbl, ws[0], infos[0]) then 1 else 0) +
      StartNotifications(h, tbl, ws[1..], infos[1..])
  }

  function CloseNotifications(h: Handler, tbl: TableUserEvent, ws: seq<Window>, infos: seq<Option<UserEventInfo>>): nat
    requires |ws| == |infos|
  {
    if ws == [] then 0
    else
      (if CloseNotifies(h, tbl, ws[0], infos[0]) then 1 else 0) +
      CloseNotifications(h, tbl, ws[1..], infos[1..])
  }

  /** A check notifies for exactly one of its edges, or not at all; Check never resets. */
  lemma NotifiedByOneEdge(h: Handler, tbl: TableUserEvent, w: Window, info: Option<UserEventInfo>)
    requires w.last <= w.now
    ensures var r := OnTimeCheck(h, ContextOf(tbl, w, info));
      && (r == Notified <==> StartNotifies(h, tbl, w, info) || CloseNotifies(h, tbl, w, info))
      && !(StartNotifies(h, tbl, w, info) && CloseNotifies(h, tbl, w, info))
      && r != Reset
  {
  }

  /** A count above zero is a check at which the handler notifies. */
  lemma {:induction false} NotificationsExactly(h: Handler, tbl: TableUserEvent, ws: seq<Window>,
                                                infos: seq<Option<UserEventInfo>>)
    requires |ws| == |infos|
    ensures Notifications(h, tbl, ws, infos) > 0 <==>
            exists i | 0 <= i < |ws| ::
              OnTimeCheck(h, EventContext(Some(tbl), infos[i], ws[i], 0)) == Notified
    decreases |ws|
  {
    hide OnTimeCheck;
    if ws == [] {
    } else {
      NotificationsExactly(h, tbl, ws[1..], infos[1..]);
      forall i | 0 <= i < |ws[1..]| ensures ws[1..][i] == ws[i + 1] && infos[1..][i] == infos[i + 1] {
      }
      if i :| 0 < i < |ws| && OnTimeCheck(h, EventContext(Some(tbl), infos[i], ws[i], 0)) == Notified {
        assert ws[1..][i - 1] == ws[i] && infos[1..][i - 1] == infos[i];
      }
    }
  }

  lemma EdgesInWindow(h: Handler, tbl: TableUserEvent, w: Window, info: Option<UserEventInfo>)
    ensures StartNotifies(h, tbl, w, info) ==> Contains(w, tbl.startTime)
    ensures CloseNotifies(h, tbl, w, info) ==> Contains(w, tbl.closeTime)
  {
  }

  lemma {:induction false} NotificationsByEdge(h: Handler, tbl: TableUserEvent, ws: seq<Window>,
                                               infos: seq<Option<UserEventInfo>>)
    requires |ws| == |infos| && forall w <- ws :: w.last <= w.now
    ensures Notifications(h, tbl, ws, infos) ==
            StartNotifications(h, tbl, ws, infos) + CloseNotifications(h, tbl, ws, infos)
    ensures StartNotifications(h, tbl, ws, infos) <= Hits(ws, tbl.startTime)
    ensures CloseNotifications(h, tbl, ws, infos) <= Hits(ws, tbl.closeTime)
    decreases |ws|
  {
    if ws == [] {
    } else {
      NotifiedByOneEdge(h, tbl, ws[0], infos[0]);
      hide OnTimeCheck, StartNotifies, CloseNotifies, ContextOf;
      EdgesInWindow(h, tbl, ws[0], infos[0]);
      assert forall w <- ws[1..] :: w in ws;
      NotificationsByEdge(h, tbl, ws[1..], infos[1..]);
    }
  }

  lemma WindowsOrdered(last: int, nows: seq<int>)
    ensures forall w <- Windows(last, nows) :: w.last <= w.now
  {
    WindowsTile(last, nows);
    var ts, ws := Accepted(last, nows), Windows(last, nows);
    forall w <- ws ensures w.last <= w.now {
      var i :| 0 <= i < |ws| && ws[i] == w;
      ToTimeTMonotone(Start(last, ts, i), ts[i]);
    }
  }

  /** However the clock jumps and the user's record changes between checks, a row notifies
    * at most once for its start and at most once for its close, and only for an edge that
    * the accepted checks have covered. */
  lemma AtMostOncePerEdge(h: Handler, tbl: TableUserEvent, last: int, nows: seq<int>, infos: seq<Option<UserEventInfo>>)
    requires |infos| == |Windows(last, nows)|
    ensures var ws, end := Windows(last, nows), ToTimeT(LastAfter(last, nows));
      && Notifications(h, tbl, ws, infos) ==
         StartNotifications(h, tbl, ws, infos) + CloseNotifications(h, tbl, ws, infos)
      && StartNotifications(h, tbl, ws, infos) <= (if ToTimeT(last) < tbl.startTime <= end then 1 else 0)
      && CloseNotifications(h, tbl, ws, infos) <= (if ToTimeT(last) < tbl.closeTime <= end then 1 else 0)
  {
    WindowsOrdered(last, nows);
    BoundarySeenOnce(last, nows, tbl.startTime);
    BoundarySeenOnce(last, nows, tbl.closeTime);
    NotificationsByEdge(h, tbl, Windows(last, nows), infos);
  }

  /** The records that make every edge of a kind count. */
  predicate Uniform(infos: seq<Option<UserEventInfo>>, live: bool) {
    forall info <- infos :: if live then Live(info) else info.None?
  }

  lemma {:induction false} MissionEdges(tbl: TableUserEvent, ws: seq<Window>,
                                        infos: seq<Option<UserEventInfo>>, live: bool)
    requires |ws| == |infos| && Uniform(infos, live)
    ensures Notifications(MissionPass, tbl, ws, infos) ==
            if live then (if tbl.closeCondition == TIME_CONDITION then Hits(ws, tbl.closeTime) else 0)
            else (if tbl.startCondition == TIME_CONDITION then Hits(ws, tbl.startTime) else 0)
    decreases |ws|
  {
    if ws == [] {
    } else {
      assert infos[0] in infos && forall info <- infos[1..] :: info in infos;
      MissionEdges(tbl, ws[1..], infos[1..], live);
    }
  }

  /** A mission pass is announced exactly once: a user without a record at any check is
    * notified once if the row starts by time and its start lies in the covered time, and
    * not otherwise; a user with a live record is likewise notified of the close. */
  lemma MissionPassNotifiedOnce(tbl: TableUserEvent, last: int, nows: seq<int>,
                                infos: seq<Option<UserEventInfo>>, live: bool)
    requires |infos| == |Windows(last, nows)| && Uniform(infos, live)
    ensures var edge := if live then tbl.closeTime else tbl.startTime;
      var byTime := (if live then tbl.closeCondition else tbl.startCondition) == TIME_CONDITION;
      Notifications(MissionPass, tbl, Windows(last, nows), infos) ==
      if byTime && ToTimeT(last) < edge <= ToTimeT(LastAfter(last, nows)) then 1 else 0
  {
    MissionEdges(tbl, Windows(last, nows), infos, live);
    BoundarySeenOnce(last, nows, tbl.startTime);
    BoundarySeenOnce(last, nows, tbl.closeTime);
  }

  /** A check that announces the start of a hunting event. */
  predicate AnnouncesStart(tbl: TableUserEvent, w: Window) {
    w.last < tbl.startTime <= w.now <= tbl.closeTime
  }

  /** A check that announces its close: it falls on the very second. */
  predicate AnnouncesClose(tbl: TableUserEvent, w: Window) {
    tbl.startTime <= w.last < w.now == tbl.closeTime
  }

  lemma {:induction false} HuntingEdges(tbl: TableUserEvent, ws: seq<Window>, infos: seq<Option<UserEventInfo>>)
    requires |ws| == |infos|
    ensures StartNotifications(Hunting, tbl, ws, infos) > 0 <==> exists w <- ws :: AnnouncesStart(tbl, w)
    ensures CloseNotifications(Hunting, tbl, ws, infos) > 0 <==> exists w <- ws :: AnnouncesClose(tbl, w)
    decreases |ws|
  {
    if ws == [] {
    } else {
      HuntingEdges(tbl, ws[1..], infos[1..]);
      assert ws[0] in ws && forall w <- ws :: w == ws[0] || w in ws[1..];
      assert forall w <- ws[1..] :: w in ws;
    }
  }

  /** How often a hunting row notifies, whatever the records: once for the start if an
    * accepted check falls between start and close with the start in its window, and once
    * for the close if one falls on the very second of the close with the start behind it.
    * Either can be missed although the checks have covered its time. */
  lemma HuntingNotifiedExactly(tbl: TableUserEvent, last: int, nows: seq<int>, infos: seq<Option<UserEventInfo>>)
    requires |infos| == |Windows(last, nows)|
    ensures var ws := Windows(last, nows);
      Notifications(Hunting, tbl, ws, infos) ==
      (if exists w <- ws :: AnnouncesStart(tbl, w) then 1 else 0) +
      (if exists w <- ws :: AnnouncesClose(tbl, w) then 1 else 0)
  {
    AtMostOncePerEdge(Hunting, tbl, last, nows, infos);
    HuntingEdges(tbl, Windows(last, nows), infos);
  }

  /** A check that passes over the close, instead of falling on it, is outside the event's
    * period: the handler returns nothing, for any record. */
  lemma HuntingPassedOver(tbl: TableUserEvent, w: Window, info: Option<UserEventInfo>)
    requires Contains(w, tbl.closeTime)
    ensures OnTimeCheck(Hunting, ContextOf(tbl, w, info)) == NoResult <==>
            w.now != tbl.closeTime || tbl.startTime > w.now
  {
  }

  /** The checks cover start and close, and whatever the records, the check that covers the
    * close returns nothing and only the start is notified. */
  ghost predicate CloseMissed(tbl: TableUserEvent, nows: seq<int>) {
    && ToTimeT(0) < tbl.startTime < tbl.closeTime <= ToTimeT(LastAfter(0, nows))
    && (forall w <- Windows(0, nows), info | Contains(w, tbl.closeTime) ::
          OnTimeCheck(Hunting, ContextOf(tbl, w, info)) == NoResult)
    && forall infos: seq<Option<UserEventInfo>> | |infos| == |Windows(0, nows)| ::
         Notifications(Hunting, tbl, Windows(0, nows), infos) == 1
  }

  /** So it can be missed although the checks pass over the close. */
  lemma HuntingCloseCanBeMissed()
    ensures exists tbl, nows :: CloseMissed(tbl, nows)
  {
    var tbl := TableUserEvent(901, 1, 1, 10, 12, 0);
    var nows := [10 * TICKS_PER_SECOND, 15 * TICKS_PER_SECOND];
    var first := [nows[0]];
    OneMoreCheck(0, [], nows[0]);
    OneMoreCheck(0, first, nows[1]);
    assert [] + [nows[0]] == first && first + [nows[1]] == nows;
    var ws := Windows(0, nows);
    assert ws == [Window(0, 10), Window(10, 15)] && LastAfter(0, nows) == nows[1];
    forall infos: seq<Option<UserEventInfo>> | |infos| == |ws|
      ensures Notifications(Hunting, tbl, ws, infos) == 1
    {
      HuntingNotifiedExactly(tbl, 0, nows, infos);
      assert AnnouncesStart(tbl, ws[0]);
    }
    forall w <- ws, info | Contains(w, tbl.closeTime)
      ensures OnTimeCheck(Hunting, ContextOf(tbl, w, info)) == NoResult
    {
      HuntingPassedOver(tbl, w, info);
    }
    assert CloseMissed(tbl, nows);
  }

  /** The checks cover start and close, and whatever the records, nothing is notified. */
  ghost predicate BothMissed(tbl: TableUserEvent, nows: seq<int>) {
    && ToTimeT(0) < tbl.startTime < tbl.closeTime <= ToTimeT(LastAfter(0, nows))
    && forall infos: seq<Option<UserEventInfo>> | |infos| == |Windows(0, nows)| ::
         Notifications(Hunting, tbl, Windows(0, nows), infos) == 0
  }

  /** The start can be missed as well: one check passes over the whole event. */
  lemma HuntingStartCanBeMissed()
    ensures exists tbl, nows :: BothMissed(tbl, nows)
  {
    var tbl := TableUserEvent(901, 1, 1, 10, 12, 0);
    var nows := [15 * TICKS_PER_SECOND];
    OneMoreCheck(0, [], nows[0]);
    assert [] + [nows[0]] == nows;
    assert Windows(0, nows) == [Window(0, 15)] && LastAfter(0, nows) == nows[0];
    forall infos: seq<Option<UserEventInfo>> | |infos| == |Windows(0, nows)|
      ensures Notifications(Hunting, tbl, Windows(0, nows), infos) == 0
    {
      HuntingNotifiedExactly(tbl, 0, nows, infos);
    }
    assert BothMissed(tbl, nows);
  }
}
