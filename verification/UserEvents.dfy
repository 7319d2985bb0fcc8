/** A user's event records and the rows they are loaded from
  * (Test/MockTypes.h, Persistence/DbTypes.h, Persistence/MockDb.h). */
module UserEvents {
  import opened PacketDefs

  datatype DbEventRow = DbEventRow(eventId: nat, step: int, subStep: int, deleted: bool, lastUpdate: int)

  datatype UserEventInfo = UserEventInfo(eventId: nat, step: int, subStep: int, deleted: bool, lastUpdate: int)

  type Events = map<nat, UserEventInfo>
  type Table = map<nat, seq<DbEventRow>>

  function InfoOf(row: DbEventRow): UserEventInfo {
    UserEventInfo(row.eventId, row.step, row.subStep, row.deleted, row.lastUpdate)
  }

  /** MockDb::Query: a user without rows yields the empty result. */
  function Query(table: Table, uid: nat): seq<DbEventRow> {
    if uid in table then table[uid] else []
  }

  /** What is seeded for a uid is what is found for it, and nothing is found for others. */
  lemma QueryExactly(table: Table, seeded: nat, rows: seq<DbEventRow>, uid: nat)
    ensures Query(table[seeded := rows], uid) == if uid == seeded then rows else Query(table, uid)
    ensures Query(map[], uid) == []
    ensures uid in table ==> Query(table, uid) == table[uid]
  {
  }

  /** The container after the main-thread callback inserted the rows one by one. */
  function Overlay(events: Events, rows: seq<DbEventRow>): Events {
    if rows == [] then events
    else
      var last := rows[|rows| - 1];
      Overlay(events, rows[..|rows| - 1])[last.eventId := InfoOf(last)]
  }

  /** The last row of each event wins. */
  lemma {:induction false} OverlayLastRowWins(events: Events, rows: seq<DbEventRow>, k: nat)
    requires k < |rows| && forall i | k < i < |rows| :: rows[i].eventId != rows[k].eventId
    ensures rows[k].eventId in Overlay(events, rows)
    ensures var info, row := Overlay(events, rows)[rows[k].eventId], rows[k];
      && info.eventId == row.eventId && info.step == row.step && info.subStep == row.subStep
      && info.deleted == row.deleted && info.lastUpdate == row.lastUpdate
  {
    var n := |rows| - 1;
    if k == n {
    } else {
      assert rows[n].eventId != rows[k].eventId;
      OverlayLastRowWins(events, rows[..n], k);
    }
  }

  /** Events without a row keep their record, or stay without one. */
  lemma {:induction false} OverlayKeepsOthers(events: Events, rows: seq<DbEventRow>, id: nat)
    requires forall row <- rows :: row.eventId != id
    ensures id in Overlay(events, rows) <==> id in events
    ensures id in events ==> Overlay(events, rows)[id] == events[id]
  {
    if rows == [] {
    } else {
      OverlayKeepsOthers(events, rows[..|rows| - 1], id);
    }
  }

  lemma {:induction false} OverlayConcat(events: Events, first: seq<DbEventRow>, later: seq<DbEventRow>)
    ensures Overlay(events, first + later) == Overlay(Overlay(events, first), later)
    decreases |later|
  {
    if later == [] {
      assert first + later == first;
    } else {
      var n := |later| - 1;
      assert (first + later)[..|first| + n] == first + later[..n];
      OverlayConcat(events, first, later[..n]);
    }
  }

  /** CUser with its UserEventContainer. Ticks are the time_point's. */
  class CUser {
    const uid: nat
    var events: Events
    var lastCheck: int

    constructor (uid: nat)
      ensures this.uid == uid && events == map[] && lastCheck == 0
    {
      this.uid := uid;
      events, lastCheck := map[], 0;
    }

    method GetInfo(eventId: nat) returns (info: Option<UserEventInfo>)
      ensures info.Some? <==> eventId in events
      ensures info.Some? ==> info.value == events[eventId]
    {
      if eventId in events {
        info := Some(events[eventId]);
      } else {
        info := None;
      }
    }

    method Insert(info: UserEventInfo)
      modifies `events
      ensures events == old(events)[info.eventId := info]
    {
      events := events[info.eventId := info];
    }

    /** The row loop of the main-thread callback in LoadUserEventsAsync. */
    method InsertRows(rows: seq<DbEventRow>)
      modifies `events
      ensures events == Overlay(old(events), rows)
    {
      for i := 0 to |rows|
        invariant events == Overlay(old(events), rows[..i])
      {
        assert rows[..i + 1][..i] == rows[..i];
        Insert(InfoOf(rows[i]));
      }
      assert rows[..|rows|] == rows;
    }
  }
}
