/** The charge_sessions table. Rows are never deleted, so a session's id is its row's position plus one. */
module Sessions {
  import opened Config

  datatype Session = Session(
    startedAt: Time, endedAt: Option<Time>, startReason: string, stopReason: string,
    startSoC: Option<int>, endSoC: Option<int>, energyWh: real, avgW: real, peakW: real)
  {
    predicate IsOpen() { endedAt.None? }
  }

  type Table = seq<Session>

  predicate HasRow(t: Table, id: int) {
    1 <= id <= |t|
  }

  predicate OpenAt(t: Table, id: int) {
    HasRow(t, id) && t[id - 1].IsOpen()
  }

  function NewSession(at: Time, reason: string, soc: Option<int>): Session {
    Session(at, None, reason, "", soc, None, 0.0, 0.0, 0.0)
  }

  function Started(t: Table, at: Time, reason: string, soc: Option<int>): Table {
    t + [NewSession(at, reason, soc)]
  }

  function WithMetrics(t: Table, id: int, energyWh: real, avgW: real, peakW: real): Table {
    if OpenAt(t, id) then t[id - 1 := t[id - 1].(energyWh := energyWh, avgW := avgW, peakW := peakW)] else t
  }

  /** Closing does not check that the row is still open; see ClosedRowsFrozen for why that is safe. */
  function Ended(t: Table, id: int, at: Time, reason: string, soc: Option<int>,
                 energyWh: real, avgW: real, peakW: real): Table {
    if HasRow(t, id) then
      t[id - 1 := t[id - 1].(endedAt := Some(at), stopReason := reason, endSoC := soc,
                             energyWh := energyWh, avgW := avgW, peakW := peakW)]
    else t
  }

  /** Row `a` comes after row `b` in the order the open session is looked up in. */
  predicate Later(t: Table, a: int, b: int) requires HasRow(t, a) && HasRow(t, b) {
    t[a - 1].startedAt > t[b - 1].startedAt || (t[a - 1].startedAt == t[b - 1].startedAt && a > b)
  }

  /** The open row started last, ties broken by id; 0 when no row is open. */
  function LatestOpen(t: Table): (id: int)
    ensures id == 0 <==> forall i :: 1 <= i <= |t| ==> !OpenAt(t, i)
    ensures id != 0 ==> OpenAt(t, id) && forall i :: 1 <= i <= |t| && OpenAt(t, i) && i != id ==> Later(t, id, i)
  {
    if t == [] then 0
    else
      var init := t[..|t| - 1];
      var best := LatestOpen(init);
      assert forall i :: 1 <= i < |t| ==> OpenAt(t, i) == OpenAt(init, i);
      assert OpenAt(t, |t|) == t[|t| - 1].IsOpen();
      if t[|t| - 1].IsOpen() && (best == 0 || Later(t, |t|, best)) then |t| else best
  }

  /** The live table, rows updated in place. A false `ok` is a database failure: nothing is written. */
  class SessionTable {
    var rows: Table

    constructor (rows: Table)
      ensures this.rows == rows
    {
      this.rows := rows;
    }

    method StartSession(at: Time, reason: string, soc: Option<int>, ok: bool) returns (id: int)
      modifies this
      ensures rows == if ok then Started(old(rows), at, reason, soc) else old(rows)
      ensures if ok then OpenAt(rows, id) && !HasRow(old(rows), id) else id == 0
    {
      if !ok { return 0; }
      rows := rows + [Session(at, None, reason, "", soc, None, 0.0, 0.0, 0.0)];
      id := |rows|;
    }

    method UpdateSessionMetrics(id: int, energyWh: real, avgW: real, peakW: real, ok: bool) returns (done: bool)
      modifies this
      ensures rows == if ok then WithMetrics(old(rows), id, energyWh, avgW, peakW) else old(rows)
      ensures done <==> ok && OpenAt(old(rows), id)
    {
      if !ok || id < 1 || id > |rows| || rows[id - 1].endedAt.Some? { return false; }
      var row := rows[id - 1];
      rows := rows[id - 1 := row.(energyWh := energyWh, avgW := avgW, peakW := peakW)];
      done := true;
    }

    method EndSession(id: int, at: Time, reason: string, soc: Option<int>,
                      energyWh: real, avgW: real, peakW: real, ok: bool) returns (done: bool)
      modifies this
      ensures rows == if ok then Ended(old(rows), id, at, reason, soc, energyWh, avgW, peakW) else old(rows)
      ensures done <==> ok && HasRow(old(rows), id)
    {
      if !ok || id < 1 || id > |rows| { return false; }
      var row := rows[id - 1].(endedAt := Some(at), stopReason := reason, endSoC := soc);
      rows := rows[id - 1 := row.(energyWh := energyWh, avgW := avgW, peakW := peakW)];
      done := true;
    }

    method OpenSession() returns (id: int)
      ensures id == LatestOpen(rows)
    {
      id := 0;
      for i := 1 to |rows| + 1
        invariant id == LatestOpen(rows[..i - 1])
      {
        assert rows[..i][..i - 1] == rows[..i - 1];
        if rows[i - 1].IsOpen() && (id == 0 || rows[i - 1].startedAt >= rows[id - 1].startedAt) {
          id := i;
        }
      }
      assert rows[..|rows|] == rows;
    }
  }
}
