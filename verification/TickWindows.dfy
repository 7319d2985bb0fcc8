/** EventUpdateChecker::Check: the throttle, and the windows of seconds that accepted checks
  * hand to the event handlers. */
module TickWindows {
  import opened PacketDefs
  import opened UserEvents

  // system_clock counts 100 ns ticks on the platform of the server.
  const TICKS_PER_SECOND: int := 10_000_000
  const CHECK_INTERVAL: int := 5 * TICKS_PER_SECOND

  /** system_clock::to_time_t truncates towards zero. */
  function ToTimeT(t: int): int {
    if t >= 0 then t / TICKS_PER_SECOND else -((-t) / TICKS_PER_SECOND)
  }

  /** It gives the second that a time point lies in, counted from the epoch outwards. */
  lemma ToTimeTExactly(t: int)
    ensures t >= 0 ==> ToTimeT(t) * 10_000_000 <= t < (ToTimeT(t) + 1) * 10_000_000
    ensures ToTimeT(-t) == -ToTimeT(t)
  {
  }

  predicate ShouldCheck(now: int, lastCheck: int) {
    now - lastCheck >= CHECK_INTERVAL
  }

  /** The base context's time fields, in seconds. */
  datatype Window = Window(last: int, now: int)

  /** A time boundary is edge-triggered in this window. */
  predicate Contains(w: Window, second: int) {
    w.last < second && w.now >= second
  }

  function WindowOf(lastCheck: int, now: int): Window {
    Window(ToTimeT(lastCheck), ToTimeT(now))
  }

  method Check(now: int, user: CUser) returns (window: Option<Window>)
    modifies user`lastCheck
    ensures window.Some? <==> now - old(user.lastCheck) >= 50_000_000
    ensures window.Some? ==> window.value == Window(ToTimeT(old(user.lastCheck)), ToTimeT(now))
    ensures user.lastCheck == if window.Some? then now else old(user.lastCheck)
    ensures Windows(old(user.lastCheck), [now]) == if window.Some? then [window.value] else []
    ensures user.lastCheck == LastAfter(old(user.lastCheck), [now])
  {
    if !ShouldCheck(now, user.lastCheck) {
      return None;
    }
    var base := WindowOf(user.lastCheck, now);
    user.lastCheck := now;
    return Some(base);
  }

  // ----- A run of checks at arbitrary time points -----

  function LastAfter(lastCheck: int, nows: seq<int>): int
    decreases |nows|
  {
    if nows == [] then lastCheck
    else LastAfter(if ShouldCheck(nows[0], lastCheck) then nows[0] else lastCheck, nows[1..])
  }

  /** The time points of the accepted checks. */
  function Accepted(lastCheck: int, nows: seq<int>): seq<int>
    decreases |nows|
  {
    if nows == [] then []
    else if ShouldCheck(nows[0], lastCheck) then [nows[0]] + Accepted(nows[0], nows[1..])
    else Accepted(lastCheck, nows[1..])
  }

  /** The windows that they hand out. */
  function Windows(lastCheck: int, nows: seq<int>): seq<Window>
    decreases |nows|
  {
    if nows == [] then []
    else if ShouldCheck(nows[0], lastCheck) then [WindowOf(lastCheck, nows[0])] + Windows(nows[0], nows[1..])
    else Windows(lastCheck, nows[1..])
  }

  /** A check after others: accepted if five seconds have passed since the last accepted
    * one, and then its window begins there. */
  lemma {:induction false} OneMoreCheck(last: int, nows: seq<int>, now: int)
    ensures var before := LastAfter(last, nows);
      if now - before >= 50_000_000 then
        && LastAfter(last, nows + [now]) == now
        && Accepted(last, nows + [now]) == Accepted(last, nows) + [now]
        && Windows(last, nows + [now]) == Windows(last, nows) + [Window(ToTimeT(before), ToTimeT(now))]
      else
        && LastAfter(last, nows + [now]) == before
        && Accepted(last, nows + [now]) == Accepted(last, nows)
        && Windows(last, nows + [now]) == Windows(last, nows)
    ensures LastAfter(last, []) == last && Accepted(last, []) == [] && Windows(last, []) == []
    decreases |nows|
  {
    hide ToTimeT;
    if nows == [] {
      assert (nows + [now])[1..] == [];
    } else {
      assert (nows + [now])[1..] == nows[1..] + [now];
      OneMoreCheck(if ShouldCheck(nows[0], last) then nows[0] else last, nows[1..], now);
    }
  }

  /** The time point at which the window of check i begins. */
  function Start(last: int, ts: seq<int>, i: nat): int
    requires i <= |ts|
  {
    if i == 0 then last else ts[i - 1]
  }

  /** The windows are consecutive, from `last` to the last check, each at least as long as
    * the interval. */
  predicate Tiled(last: int, ts: seq<int>, ws: seq<Window>) {
    && |ts| == |ws|
    && forall i | 0 <= i < |ws| ::
         ws[i] == WindowOf(Start(last, ts, i), ts[i]) && ts[i] - Start(last, ts, i) >= CHECK_INTERVAL
  }

  lemma TiledCons(last: int, next: int, ts: seq<int>, ws: seq<Window>)
    requires Tiled(next, ts, ws) && next - last >= CHECK_INTERVAL
    ensures Tiled(last, [next] + ts, [WindowOf(last, next)] + ws)
    ensures Start(last, [next] + ts, |ts| + 1) == Start(next, ts, |ts|)
  {
    hide WindowOf;
    var ts', ws' := [next] + ts, [WindowOf(last, next)] + ws;
    forall i | 0 <= i < |ws'|
      ensures ws'[i] == WindowOf(Start(last, ts', i), ts'[i]) && ts'[i] - Start(last, ts', i) >= CHECK_INTERVAL
    {
      if i > 0 {
        assert ts'[i] == ts[i - 1] && ws'[i] == ws[i - 1] && Start(last, ts', i) == Start(next, ts, i - 1);
      }
    }
  }

  lemma NothingTiled(last: int)
    ensures Tiled(last, [], [])
  {
  }

  /** However the clock jumps, accepted checks advance by at least the interval, and their
    * windows are consecutive from the first last-check time to the last one. */
  lemma {:induction false} WindowsTile(last: int, nows: seq<int>)
    ensures var ts := Accepted(last, nows);
      && Tiled(last, ts, Windows(last, nows))
      && LastAfter(last, nows) == Start(last, ts, |ts|)
      && LastAfter(last, nows) - last >= |ts| * CHECK_INTERVAL
    decreases |nows|
  {
    hide WindowOf, Tiled;
    if nows == [] {
      NothingTiled(last);
    } else {
      var next := if ShouldCheck(nows[0], last) then nows[0] else last;
      WindowsTile(next, nows[1..]);
      if ShouldCheck(nows[0], last) {
        TiledCons(last, next, Accepted(next, nows[1..]), Windows(next, nows[1..]));
      }
    }
  }

  /** Accepted checks are at most one per five elapsed seconds, also in whole seconds. A
    * user's last-check time starts at the epoch and only grows; just before the epoch,
    * where to_time_t rounds up, the bound would fail. */
  lemma {:induction false} ThrottleBound(last: int, nows: seq<int>)
    requires last >= 0
    ensures 5 * |Windows(last, nows)| <= ToTimeT(LastAfter(last, nows)) - ToTimeT(last)
    ensures forall w <- Windows(last, nows) :: w.now - w.last >= 5
    decreases |nows|
  {
    if nows == [] {
    } else {
      ThrottleBound(if ShouldCheck(nows[0], last) then nows[0] else last, nows[1..]);
    }
  }

  /** In how many windows a boundary falls. */
  function Hits(ws: seq<Window>, second: int): nat {
    if ws == [] then 0 else (if Contains(ws[0], second) then 1 else 0) + Hits(ws[1..], second)
  }

  lemma ToTimeTMonotone(a: int, b: int)
    requires a <= b
    ensures ToTimeT(a) <= ToTimeT(b)
  {
  }

  /** A time boundary falls in exactly one window if it lies after the first last-check
    * second and not after the last accepted second, and in none otherwise. */
  lemma {:induction false} BoundarySeenOnce(last: int, nows: seq<int>, second: int)
    ensures Hits(Windows(last, nows), second) ==
            if ToTimeT(last) < second <= ToTimeT(LastAfter(last, nows)) then 1 else 0
    decreases |nows|
  {
    if nows == [] {
    } else {
      var next := if ShouldCheck(nows[0], last) then nows[0] else last;
      BoundarySeenOnce(next, nows[1..], second);
      WindowsTile(next, nows[1..]);
      ToTimeTMonotone(last, next);
      ToTimeTMonotone(next, LastAfter(last, nows));
    }
  }
}
