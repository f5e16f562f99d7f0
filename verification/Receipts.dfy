/** Receipts (internal/whatsapp/session_manager.go:215-247) over both stores
    (internal/store/memory.go:201-224, 280-283, 306-313). */
module Receipts {
  import opened Common
  import opened Jobs
  import opened Lifecycle

  /** WhatsApp's own message ID; NO_WA_ID is the empty string of a message that was never sent. */
  type WaId = nat

  const NO_WA_ID: WaId := 0

  datatype Row = Row(session: nat, waId: WaId, status: Status)

  type Rows = map<Id, Row>

  datatype Event = Event(id: Id, status: Status)

  /** The two stores differ in how they look a WhatsApp ID up and in how they update. */
  datatype Backend = Memory | Postgres

  /** One WhatsApp ID of a receipt, with the status the receipt asks for. */
  datatype Hit = Hit(session: nat, waId: WaId, status: Status)

  /** Postgres stores an empty WhatsApp ID as NULL, which equals nothing. */
  predicate Matches(b: Backend, row: Row, h: Hit) {
    row.session == h.session && row.waId == h.waId && (b.Postgres? ==> h.waId != NO_WA_ID)
  }

  /** The first matching row in an iteration order of the store. */
  function First(b: Backend, order: seq<Id>, rows: Rows, h: Hit): (id: Option<Id>)
    ensures id.Some? ==> id.value in rows && Matches(b, rows[id.value], h)
  {
    if order == [] then None
    else if order[0] in rows && Matches(b, rows[order[0]], h) then Some(order[0])
    else First(b, order[1..], rows, h)
  }

  predicate Covers(order: seq<Id>, rows: Rows) {
    forall id <- rows :: id in order
  }

  /** UpdateMessageReceipt: Memory overwrites the first match without a test; Postgres updates all
      matches that are sent or delivered, and finding none is no error there. */
  function Updated(b: Backend, order: seq<Id>, rows: Rows, h: Hit): Option<Rows> {
    match b
    case Memory =>
      var id := First(b, order, rows, h);
      if id.None? then None else Some(rows[id.value := rows[id.value].(status := h.status)])
    case Postgres =>
      Some(map id | id in rows ::
             if Matches(b, rows[id], h) && rows[id].status in {Sent, Delivered}
             then rows[id].(status := h.status) else rows[id])
  }

  datatype Tracker = Tracker(rows: Rows, events: seq<Event>)

  /** What the store does in one turn: the iteration orders that the lookup and the update meet,
      whether the lookup succeeds, and how the update ends. */
  datatype Access = Access(find: seq<Id>, update: seq<Id>, finds: bool, effect: Effect)

  /** One turn of the receipt loop: the WhatsApp ID asked for and what the store does. */
  datatype Turn = Turn(hit: Hit, access: Access)

  function AfterTurn(b: Backend, s: Tracker, t: Turn): Tracker {
    var id := First(b, t.access.find, s.rows, t.hit);
    if !t.access.finds || id.None? || !Moves(s.rows[id.value].status, t.hit.status) then s
    else
      var rows := Updated(b, t.access.update, s.rows, t.hit);
      if t.access.effect.NotDone? || rows.None? then s
      else Tracker(rows.value, if t.access.effect.Done? then s.events + [Event(id.value, t.hit.status)] else s.events)
  }

  datatype Kind = DeliveredReceipt | ReadReceipt | OtherReceipt

  function StatusOf(kind: Kind): Status
    requires !kind.OtherReceipt?
  {
    if kind.DeliveredReceipt? then Delivered else Seen
  }

  function AfterTurns(b: Backend, s: Tracker, turns: seq<Turn>): Tracker {
    if turns == [] then s
    else AfterTurn(b, AfterTurns(b, s, turns[..|turns| - 1]), turns[|turns| - 1])
  }

  /** A receipt as it arrives, with what the store does for each of its IDs. */
  datatype Receipt = Receipt(session: nat, kind: Kind, ids: seq<WaId>, accesses: seq<Access>)

  predicate WellFormed(r: Receipt) {
    |r.accesses| == |r.ids|
  }

  /** The turns of the loop that one receipt causes. */
  function TurnsOf(r: Receipt): (turns: seq<Turn>)
    requires WellFormed(r)
    ensures r.kind.OtherReceipt? ==> turns == []
    ensures !r.kind.OtherReceipt? ==>
              && |turns| == |r.ids|
              && forall i | 0 <= i < |turns| ::
                   turns[i] == Turn(Hit(r.session, r.ids[i], StatusOf(r.kind)), r.accesses[i])
  {
    if r.kind.OtherReceipt? then []
    else seq(|r.ids|, i requires 0 <= i < |r.ids| => Turn(Hit(r.session, r.ids[i], StatusOf(r.kind)), r.accesses[i]))
  }

  /** The turns of a sequence of receipts. */
  function AllTurns(receipts: seq<Receipt>): seq<Turn>
    requires forall r <- receipts :: WellFormed(r)
  {
    if receipts == [] then []
    else AllTurns(receipts[..|receipts| - 1]) + TurnsOf(receipts[|receipts| - 1])
  }

  class SessionManager {
    const backend: Backend
    var s: Tracker

    constructor (backend: Backend, rows: Rows)
      ensures this.backend == backend && s == Tracker(rows, [])
    {
      this.backend := backend;
      s := Tracker(rows, []);
    }

    /** handleReceipt, which holds receiptMu throughout. */
    method HandleReceipt(r: Receipt)
      requires WellFormed(r)
      modifies this
      ensures s == AfterTurns(backend, old(s), TurnsOf(r))
    {
      if r.kind.OtherReceipt? {
        return;
      }
      var status := StatusOf(r.kind);
      ghost var turns := TurnsOf(r);
      for i := 0 to |r.ids|
        invariant s == AfterTurns(backend, old(s), turns[..i])
      {
        assert turns[..i + 1][..i] == turns[..i];
        var h := Hit(r.session, r.ids[i], status);
        var id := First(backend, r.accesses[i].find, s.rows, h);
        if r.accesses[i].finds && id.Some? && Moves(s.rows[id.value].status, status) {
          var rows := Updated(backend, r.accesses[i].update, s.rows, h);
          if rows.Some? && !r.accesses[i].effect.NotDone? {
            var event := [Event(id.value, status)];
            s := Tracker(rows.value, if r.accesses[i].effect.Done? then s.events + event else s.events);
          }
        }
      }
      assert turns[..|r.ids|] == turns;
    }

    /** Receipts one after the other: what is proved of sequences of turns holds for them. */
    method HandleReceipts(receipts: seq<Receipt>)
      requires forall r <- receipts :: WellFormed(r)
      modifies this
      ensures s == AfterTurns(backend, old(s), AllTurns(receipts))
    {
      for i := 0 to |receipts|
        invariant s == AfterTurns(backend, old(s), AllTurns(receipts[..i]))
      {
        assert receipts[..i + 1][..i] == receipts[..i];
        TurnsCompose(backend, old(s), AllTurns(receipts[..i]), TurnsOf(receipts[i]));
        HandleReceipt(receipts[i]);
      }
      assert receipts[..|receipts|] == receipts;
    }
  }

  lemma {:induction false} TurnsCompose(b: Backend, s: Tracker, turns: seq<Turn>, more: seq<Turn>)
    ensures AfterTurns(b, s, turns + more) == AfterTurns(b, AfterTurns(b, s, turns), more)
  {
    if more == [] {
      assert turns + more == turns;
    } else {
      TurnsCompose(b, s, turns, more[..|more| - 1]);
      assert (turns + more)[..|turns + more| - 1] == turns + more[..|more| - 1];
    }
  }

  // ---------------------------------------------------------------- what a receipt does

  /** WhatsApp IDs are unique within a session, and every message that was sent has one. */
  ghost predicate Identified(rows: Rows) {
    && (forall a <- rows, b <- rows | a != b && rows[a].waId != NO_WA_ID ::
          rows[a].session != rows[b].session || rows[a].waId != rows[b].waId)
    && (forall id <- rows | rows[id].status in {Sent, Delivered, Seen} :: rows[id].waId != NO_WA_ID)
  }

  /** Does the hit change this row? */
  predicate Touches(row: Row, h: Hit) {
    row.session == h.session && row.waId == h.waId && Moves(row.status, h.status)
  }

  function Moved(row: Row, h: Hit): Row {
    if Touches(row, h) then row.(status := h.status) else row
  }

  /** The specification of a turn: every row moves by itself. */
  function MovedAll(rows: Rows, h: Hit): Rows {
    map id | id in rows :: Moved(rows[id], h)
  }

  lemma {:induction false} FirstMisses(b: Backend, order: seq<Id>, rows: Rows, h: Hit)
    requires First(b, order, rows, h).None?
    ensures forall k <- rows | k in order :: !Matches(b, rows[k], h)
  {
    if order != [] {
      FirstMisses(b, order[1..], rows, h);
    }
  }

  /** A touched row is the one that every lookup returns. */
  lemma TouchedIsFirst(b: Backend, order: seq<Id>, rows: Rows, h: Hit, id: Id)
    requires Identified(rows) && Covers(order, rows) && id in rows && Touches(rows[id], h)
    ensures First(b, order, rows, h) == Some(id)
    ensures forall k <- rows | k != id :: !(rows[k].session == h.session && rows[k].waId == h.waId)
  {
    assert rows[id].waId != NO_WA_ID && Matches(b, rows[id], h);
    if First(b, order, rows, h).None? {
      FirstMisses(b, order, rows, h);
    }
  }

  /** Does the update reach the store? */
  predicate Works(a: Access) {
    a.finds && !a.effect.NotDone?
  }

  /** A turn moves every row by itself, or nothing when the store fails, and reports the row it
      moves, if any and if the update is known to be done. */
  lemma TurnMoves(b: Backend, s: Tracker, t: Turn)
    requires Identified(s.rows) && Covers(t.access.find, s.rows) && Covers(t.access.update, s.rows)
    ensures AfterTurn(b, s, t).rows == if Works(t.access) then MovedAll(s.rows, t.hit) else s.rows
    ensures forall id <- s.rows | Touches(s.rows[id], t.hit) && t.access.finds && t.access.effect.Done? ::
              AfterTurn(b, s, t).events == s.events + [Event(id, t.hit.status)]
    ensures (!(t.access.finds && t.access.effect.Done?) || forall id <- s.rows :: !Touches(s.rows[id], t.hit))
            ==> AfterTurn(b, s, t).events == s.events
  {
    var rows := s.rows;
    if id :| id in rows && Touches(rows[id], t.hit) {
      TouchedIsFirst(b, t.access.find, rows, t.hit, id);
      TouchedIsFirst(b, t.access.update, rows, t.hit, id);
    }
  }

  lemma MovedAllKeepsIdentified(rows: Rows, h: Hit)
    requires Identified(rows)
    ensures Identified(MovedAll(rows, h))
  {
  }

  // ---------------------------------------------------------------- runs of receipts

  predicate AllCover(turns: seq<Turn>, rows: Rows) {
    forall i | 0 <= i < |turns| :: Covers(turns[i].access.find, rows) && Covers(turns[i].access.update, rows)
  }

  /** A receipt that reached the store, and whether the update is known to be done. */
  datatype Asked = Asked(status: Status, reported: bool)

  /** The receipts that reach one row. */
  function Concerning(turns: seq<Turn>, row: Row): seq<Asked> {
    if turns == [] then []
    else
      var t := turns[|turns| - 1];
      Concerning(turns[..|turns| - 1], row) +
      if Works(t.access) && t.hit.session == row.session && t.hit.waId == row.waId
      then [Asked(t.hit.status, t.access.effect.Done?)] else []
  }

  function After(status: Status, asked: seq<Asked>): Status {
    if asked == [] then status
    else
      var before := After(status, asked[..|asked| - 1]);
      if Moves(before, asked[|asked| - 1].status) then asked[|asked| - 1].status else before
  }

  /** The moves among the receipts that are dispatched. */
  function Reported(status: Status, asked: seq<Asked>): seq<Status> {
    if asked == [] then []
    else
      var n := |asked| - 1;
      Reported(status, asked[..n]) +
      if Moves(After(status, asked[..n]), asked[n].status) && asked[n].reported then [asked[n].status] else []
  }

  /** The events of one message. */
  function EventsOf(events: seq<Event>, id: Id): seq<Status> {
    if events == [] then []
    else
      var n := |events| - 1;
      EventsOf(events[..n], id) + if events[n].id == id then [events[n].status] else []
  }

  lemma EventsSnoc(events: seq<Event>, e: Event, id: Id)
    ensures EventsOf(events + [e], id) == EventsOf(events, id) + if e.id == id then [e.status] else []
  {
    assert (events + [e])[..|events|] == events;
  }

  /** A run of receipts, over either store, in any iteration orders and with any store errors, gives
      each message the status and the events that the receipts which reach it call for. */
  lemma {:induction false} EachRowByItself(b: Backend, rows: Rows, turns: seq<Turn>, id: Id)
    requires Identified(rows) && AllCover(turns, rows) && id in rows
    ensures var s := AfterTurns(b, Tracker(rows, []), turns);
            && s.rows.Keys == rows.Keys && Identified(s.rows)
            && s.rows[id] == rows[id].(status := After(rows[id].status, Concerning(turns, rows[id])))
            && EventsOf(s.events, id) == Reported(rows[id].status, Concerning(turns, rows[id]))
  {
    if turns != [] {
      var n := |turns| - 1;
      EachRowByItself(b, rows, turns[..n], id);
      var s := AfterTurns(b, Tracker(rows, []), turns[..n]);
      TurnMoves(b, s, turns[n]);
      MovedAllKeepsIdentified(s.rows, turns[n].hit);
      OneTurn(b, s, turns[n], id);
      ConcernedStep(turns, rows[id]);
    }
  }

  lemma ConcernedStep(turns: seq<Turn>, row: Row)
    requires turns != []
    ensures var n := |turns| - 1; var asked, before, t := Concerning(turns, row), Concerning(turns[..n], row), turns[n];
            if Works(t.access) && t.hit.session == row.session && t.hit.waId == row.waId
            then asked == before + [Asked(t.hit.status, t.access.effect.Done?)] && asked[..|asked| - 1] == before
            else asked == before
  {
  }

  lemma OneTurn(b: Backend, s: Tracker, t: Turn, id: Id)
    requires Identified(s.rows) && Covers(t.access.find, s.rows) && Covers(t.access.update, s.rows) && id in s.rows
    ensures var after := AfterTurn(b, s, t);
            && after.rows.Keys == s.rows.Keys
            && after.rows[id] == (if Works(t.access) then Moved(s.rows[id], t.hit) else s.rows[id])
            && EventsOf(after.events, id) == EventsOf(s.events, id) +
               if Touches(s.rows[id], t.hit) && t.access.finds && t.access.effect.Done? then [t.hit.status] else []
  {
    TurnMoves(b, s, t);
    if k :| k in s.rows && Touches(s.rows[k], t.hit) {
      EventsSnoc(s.events, Event(k, t.hit.status), id);
      TouchedIsFirst(b, t.access.find, s.rows, t.hit, k);
    }
  }

  // ---------------------------------------------------------------- confluence

  /** The order of the statuses a sent message can take. */
  function Rank(s: Status): int {
    match s
    case Sent => 0
    case Delivered => 1
    case Seen => 2
    case _ => -1
  }

  /** Queued and failed messages are not moved by receipts. */
  predicate OnTheWay(s: Status) {
    Rank(s) >= 0
  }

  /** The highest of a status and the receipts asked for. */
  function Highest(status: Status, asked: seq<Asked>): Status {
    if asked == [] then status
    else
      var before := Highest(status, asked[..|asked| - 1]);
      if Rank(asked[|asked| - 1].status) > Rank(before) then asked[|asked| - 1].status else before
  }

  predicate ReceiptStatuses(asked: seq<Asked>) {
    forall i | 0 <= i < |asked| :: asked[i].status == Delivered || asked[i].status == Seen
  }

  /** Is a status asked for? */
  predicate Asks(asked: seq<Asked>, status: Status) {
    exists i | 0 <= i < |asked| :: asked[i].status == status
  }

  lemma AsksSnoc(asked: seq<Asked>, status: Status)
    requires asked != []
    ensures Asks(asked, status) <==> Asks(asked[..|asked| - 1], status) || asked[|asked| - 1].status == status
  {
    var front := asked[..|asked| - 1];
    if Asks(front, status) {
      var i :| 0 <= i < |front| && front[i].status == status;
      assert asked[i].status == status;
    }
    if Asks(asked, status) && asked[|asked| - 1].status != status {
      var i :| 0 <= i < |asked| && asked[i].status == status;
      assert front[i].status == status;
    }
  }

  /** The final status is the highest one, and no receipt ever lowers it. */
  lemma {:induction false} AfterIsHighest(status: Status, asked: seq<Asked>)
    requires OnTheWay(status) && ReceiptStatuses(asked)
    ensures After(status, asked) == Highest(status, asked)
    ensures asked != [] ==> Rank(After(status, asked)) >= Rank(After(status, asked[..|asked| - 1]))
    ensures OnTheWay(After(status, asked))
  {
    if asked != [] {
      AfterIsHighest(status, asked[..|asked| - 1]);
    }
  }

  lemma {:induction false} HighestIsReached(status: Status, asked: seq<Asked>)
    ensures Highest(status, asked) == status || Asks(asked, Highest(status, asked))
    ensures Rank(Highest(status, asked)) >= Rank(status)
    ensures forall i | 0 <= i < |asked| :: Rank(Highest(status, asked)) >= Rank(asked[i].status)
  {
    if asked != [] {
      HighestIsReached(status, asked[..|asked| - 1]);
      AsksSnoc(asked, Highest(status, asked));
    }
  }

  /** Did a turn with this hit reach the store? */
  predicate Reached(turns: seq<Turn>, h: Hit) {
    exists i | 0 <= i < |turns| :: turns[i].hit == h && Works(turns[i].access)
  }

  lemma ReachedSnoc(turns: seq<Turn>, h: Hit)
    requires turns != []
    ensures var n := |turns| - 1;
            Reached(turns, h) <==> Reached(turns[..n], h) || (turns[n].hit == h && Works(turns[n].access))
  {
    var n := |turns| - 1;
    if Reached(turns[..n], h) {
      var i :| 0 <= i < n && turns[..n][i].hit == h && Works(turns[..n][i].access);
      assert turns[i].hit == h;
    }
    if Reached(turns, h) && !(turns[n].hit == h && Works(turns[n].access)) {
      var i :| 0 <= i < |turns| && turns[i].hit == h && Works(turns[i].access);
      assert turns[..n][i].hit == h;
    }
  }

  lemma {:induction false} ConcerningMembers(turns: seq<Turn>, row: Row, status: Status)
    ensures Asks(Concerning(turns, row), status) <==> Reached(turns, Hit(row.session, row.waId, status))
  {
    if turns != [] {
      ConcerningMembers(turns[..|turns| - 1], row, status);
      ReachedSnoc(turns, Hit(row.session, row.waId, status));
      ConcernedStep(turns, row);
      if Concerning(turns, row) != [] {
        AsksSnoc(Concerning(turns, row), status);
      }
    }
  }

  predicate AllReceipts(turns: seq<Turn>) {
    forall i | 0 <= i < |turns| :: turns[i].hit.status == Delivered || turns[i].hit.status == Seen
  }

  lemma {:induction false} ConcerningAreReceipts(turns: seq<Turn>, row: Row)
    requires AllReceipts(turns)
    ensures ReceiptStatuses(Concerning(turns, row))
  {
    if turns != [] {
      ConcerningAreReceipts(turns[..|turns| - 1], row);
    }
  }

  /** Was the first read receipt reported? */
  predicate ReadReported(asked: seq<Asked>) {
    asked != [] &&
    var front := asked[..|asked| - 1];
    if Asks(front, Seen) then ReadReported(front) else asked[|asked| - 1] == Asked(Seen, true)
  }

  /** What is dispatched for a sent message: message.delivered if a delivered receipt came before any
      read receipt, then message.read if there was a read receipt; each only if the update was known
      to be done, and nothing else. */
  lemma {:induction false} ReportedFromSent(asked: seq<Asked>)
    requires ReceiptStatuses(asked)
    ensures After(Sent, asked) == if Asks(asked, Seen) then Seen else if Asks(asked, Delivered) then Delivered else Sent
    ensures Reported(Sent, asked)
         == (if asked != [] && asked[0] == Asked(Delivered, true) then [Delivered] else [])
            + if ReadReported(asked) then [Seen] else []
    ensures ReadReported(asked) ==> Asks(asked, Seen)
    ensures asked != [] && asked[0].status == Delivered ==> Asks(asked, Delivered)
    ensures !Asks(asked, Seen) && Asks(asked, Delivered) ==> asked[0].status == Delivered
  {
    if asked != [] {
      ReportedFromSent(asked[..|asked| - 1]);
      AsksSnoc(asked, Seen);
      AsksSnoc(asked, Delivered);
    }
  }

  /** Without store errors every read receipt is reported. */
  lemma {:induction false} AllReported(asked: seq<Asked>)
    requires forall i | 0 <= i < |asked| :: asked[i].reported
    ensures ReadReported(asked) <==> Asks(asked, Seen)
  {
    if asked != [] {
      AllReported(asked[..|asked| - 1]);
      AsksSnoc(asked, Seen);
    }
  }

  lemma {:induction false} InertRow(status: Status, asked: seq<Asked>)
    requires !OnTheWay(status)
    ensures After(status, asked) == status && Reported(status, asked) == []
  {
    if asked != [] {
      InertRow(status, asked[..|asked| - 1]);
    }
  }

  lemma SameMembersSameHighest(status: Status, asked: seq<Asked>, asked': seq<Asked>)
    requires forall st :: Asks(asked, st) <==> Asks(asked', st)
    requires OnTheWay(status)
    ensures Rank(Highest(status, asked)) == Rank(Highest(status, asked'))
  {
    HighestIsReached(status, asked);
    HighestIsReached(status, asked');
  }

  /** Confluence and agreement: two runs in which the same receipts reach the store, whatever their
      order and repetition, whichever store they run on and in whatever iteration orders, leave every
      message with the same status. */
  lemma Confluence(b: Backend, b': Backend, rows: Rows, turns: seq<Turn>, turns': seq<Turn>)
    requires Identified(rows) && AllCover(turns, rows) && AllCover(turns', rows)
    requires AllReceipts(turns) && AllReceipts(turns')
    requires forall h :: Reached(turns, h) <==> Reached(turns', h)
    ensures AfterTurns(b, Tracker(rows, []), turns).rows == AfterTurns(b', Tracker(rows, []), turns').rows
  {
    RunKeepsKeys(b, rows, turns);
    RunKeepsKeys(b', rows, turns');
    var r, r' := AfterTurns(b, Tracker(rows, []), turns).rows, AfterTurns(b', Tracker(rows, []), turns').rows;
    forall id | id in rows ensures r[id] == r'[id] {
      SameRow(b, b', rows, turns, turns', id);
    }
  }

  lemma {:induction false} RunKeepsKeys(b: Backend, rows: Rows, turns: seq<Turn>)
    ensures AfterTurns(b, Tracker(rows, []), turns).rows.Keys == rows.Keys
  {
    if turns != [] {
      RunKeepsKeys(b, rows, turns[..|turns| - 1]);
    }
  }

  lemma SameRow(b: Backend, b': Backend, rows: Rows, turns: seq<Turn>, turns': seq<Turn>, id: Id)
    requires Identified(rows) && AllCover(turns, rows) && AllCover(turns', rows)
    requires AllReceipts(turns) && AllReceipts(turns')
    requires (forall h :: Reached(turns, h) <==> Reached(turns', h)) && id in rows
    ensures var r, r' := AfterTurns(b, Tracker(rows, []), turns).rows, AfterTurns(b', Tracker(rows, []), turns').rows;
            id in r && id in r' && r[id] == r'[id]
  {
    var row := rows[id];
    var asked, asked' := Concerning(turns, row), Concerning(turns', row);
    EachRowByItself(b, rows, turns, id);
    EachRowByItself(b', rows, turns', id);
    if OnTheWay(row.status) {
      forall st ensures Asks(asked, st) <==> Asks(asked', st) {
        ConcerningMembers(turns, row, st);
        ConcerningMembers(turns', row, st);
      }
      ConcerningAreReceipts(turns, row);
      ConcerningAreReceipts(turns', row);
      AfterIsHighest(row.status, asked);
      AfterIsHighest(row.status, asked');
      SameMembersSameHighest(row.status, asked, asked');
    } else {
      InertRow(row.status, asked);
      InertRow(row.status, asked');
    }
  }

  /** The same receipts with the same store errors, in possibly different iteration orders. */
  predicate SameTurns(turns: seq<Turn>, turns': seq<Turn>) {
    && |turns| == |turns'|
    && forall i | 0 <= i < |turns| ::
         && turns[i].hit == turns'[i].hit
         && turns[i].access.finds == turns'[i].access.finds && turns[i].access.effect == turns'[i].access.effect
  }

  /** Store agreement: the same receipts in the same order give the same rows and the same events,
      in the same order, over the unguarded Memory store and the guarded Postgres update. */
  lemma {:induction false} StoresAgree(rows: Rows, turns: seq<Turn>, turns': seq<Turn>)
    requires SameTurns(turns, turns') && Identified(rows) && AllCover(turns, rows) && AllCover(turns', rows)
    ensures AfterTurns(Memory, Tracker(rows, []), turns) == AfterTurns(Postgres, Tracker(rows, []), turns')
    ensures var s := AfterTurns(Memory, Tracker(rows, []), turns); Identified(s.rows) && s.rows.Keys == rows.Keys
  {
    if turns != [] {
      var n := |turns| - 1;
      StoresAgree(rows, turns[..n], turns'[..n]);
      SameTurn(AfterTurns(Memory, Tracker(rows, []), turns[..n]), turns[n], turns'[n]);
    }
  }

  lemma SameTurn(s: Tracker, t: Turn, t': Turn)
    requires t.hit == t'.hit && t.access.finds == t'.access.finds && t.access.effect == t'.access.effect
    requires Identified(s.rows) && Covers(t.access.find, s.rows) && Covers(t.access.update, s.rows)
    requires Covers(t'.access.find, s.rows) && Covers(t'.access.update, s.rows)
    ensures AfterTurn(Memory, s, t) == AfterTurn(Postgres, s, t')
    ensures var after := AfterTurn(Memory, s, t); Identified(after.rows) && after.rows.Keys == s.rows.Keys
  {
    TurnMoves(Memory, s, t);
    TurnMoves(Postgres, s, t');
    MovedAllKeepsIdentified(s.rows, t.hit);
    if id :| id in s.rows && Touches(s.rows[id], t.hit) {
      assert t.access.finds && t.access.effect.Done? ==>
               AfterTurn(Memory, s, t).events == s.events + [Event(id, t.hit.status)];
    }
  }

  /** A message that was sent: its final status is the highest receipt that reached it; message.delivered
      and message.read are each dispatched at most once, and delivered never after read. */
  lemma SentMessage(b: Backend, rows: Rows, turns: seq<Turn>, id: Id)
    requires Identified(rows) && AllCover(turns, rows) && AllReceipts(turns)
    requires id in rows && rows[id].status == Sent
    ensures var s, asked := AfterTurns(b, Tracker(rows, []), turns), Concerning(turns, rows[id]);
            && id in s.rows
            && s.rows[id].status ==
               (if Asks(asked, Seen) then Seen else if Asks(asked, Delivered) then Delivered else Sent)
            && EventsOf(s.events, id)
               == (if asked != [] && asked[0] == Asked(Delivered, true) then [Delivered] else [])
                  + (if ReadReported(asked) then [Seen] else [])
            && ((forall i | 0 <= i < |asked| :: asked[i].reported) ==> (ReadReported(asked) <==> Asks(asked, Seen)))
  {
    EachRowByItself(b, rows, turns, id);
    ConcerningAreReceipts(turns, rows[id]);
    ReportedFromSent(Concerning(turns, rows[id]));
    if forall i | 0 <= i < |Concerning(turns, rows[id])| :: Concerning(turns, rows[id])[i].reported {
      AllReported(Concerning(turns, rows[id]));
    }
  }

  /** A sequence of receipts of any kinds is such a run. */
  lemma {:induction false} ReceiptsAreTurns(receipts: seq<Receipt>)
    requires forall r <- receipts :: WellFormed(r)
    ensures AllReceipts(AllTurns(receipts))
  {
    if receipts != [] {
      ReceiptsAreTurns(receipts[..|receipts| - 1]);
    }
  }

  // ---------------------------------------------------------------- by kind of receipt

  /** Some receipt of this kind lists the WhatsApp ID, and the store worked for it. */
  predicate ReceivedBy(receipts: seq<Receipt>, session: nat, waId: WaId, kind: Kind) {
    exists k, i | 0 <= k < |receipts| && 0 <= i < |receipts[k].ids| && i < |receipts[k].accesses| ::
      && receipts[k].kind == kind && receipts[k].session == session && receipts[k].ids[i] == waId
      && Works(receipts[k].accesses[i])
  }

  lemma ReachedConcat(a: seq<Turn>, b: seq<Turn>, h: Hit)
    ensures Reached(a + b, h) <==> Reached(a, h) || Reached(b, h)
  {
    if Reached(a, h) {
      var i :| 0 <= i < |a| && a[i].hit == h && Works(a[i].access);
      assert (a + b)[i].hit == h;
    }
    if Reached(b, h) {
      var i :| 0 <= i < |b| && b[i].hit == h && Works(b[i].access);
      assert (a + b)[|a| + i].hit == h;
    }
    if Reached(a + b, h) {
      var i :| 0 <= i < |a + b| && (a + b)[i].hit == h && Works((a + b)[i].access);
      if i < |a| {
        assert a[i].hit == h;
      } else {
        assert b[i - |a|].hit == h;
      }
    }
  }

  /** A read receipt asks for read, a delivery receipt for delivered, any other for nothing. */
  lemma OneReceiptReaches(r: Receipt, h: Hit)
    requires WellFormed(r)
    ensures Reached(TurnsOf(r), h) <==>
            && (h.status == Seen ==> r.kind == ReadReceipt) && (h.status == Delivered ==> r.kind == DeliveredReceipt)
            && h.status in {Seen, Delivered} && r.session == h.session
            && exists i | 0 <= i < |r.ids| :: r.ids[i] == h.waId && Works(r.accesses[i])
  {
    var turns := TurnsOf(r);
    if Reached(turns, h) {
      var i :| 0 <= i < |turns| && turns[i].hit == h && Works(turns[i].access);
      assert r.ids[i] == h.waId && Works(r.accesses[i]);
    }
    if i :| 0 <= i < |r.ids| && r.ids[i] == h.waId && Works(r.accesses[i]) {
      assert !r.kind.OtherReceipt? ==> turns[i].access == r.accesses[i];
    }
  }

  lemma ReceivedSnoc(receipts: seq<Receipt>, session: nat, waId: WaId, kind: Kind)
    requires receipts != [] && WellFormed(receipts[|receipts| - 1])
    ensures var n := |receipts| - 1; var r := receipts[n];
            ReceivedBy(receipts, session, waId, kind) <==>
            || ReceivedBy(receipts[..n], session, waId, kind)
            || (r.kind == kind && r.session == session
                && exists i | 0 <= i < |r.ids| :: r.ids[i] == waId && Works(r.accesses[i]))
  {
    var n := |receipts| - 1;
    if ReceivedBy(receipts[..n], session, waId, kind) {
      var k, i :| 0 <= k < n && 0 <= i < |receipts[..n][k].ids| && i < |receipts[..n][k].accesses|
                  && receipts[..n][k].kind == kind && receipts[..n][k].session == session
                  && receipts[..n][k].ids[i] == waId && Works(receipts[..n][k].accesses[i]);
      assert receipts[k].ids[i] == waId && Works(receipts[k].accesses[i]);
    }
    if ReceivedBy(receipts, session, waId, kind) {
      var k, i :| 0 <= k <= n && 0 <= i < |receipts[k].ids| && i < |receipts[k].accesses|
                  && receipts[k].kind == kind && receipts[k].session == session
                  && receipts[k].ids[i] == waId && Works(receipts[k].accesses[i]);
      if k < n {
        assert receipts[..n][k].ids[i] == waId && Works(receipts[..n][k].accesses[i]);
      }
    }
  }

  lemma {:induction false} ReachedByKind(receipts: seq<Receipt>, session: nat, waId: WaId)
    requires forall r <- receipts :: WellFormed(r)
    ensures Reached(AllTurns(receipts), Hit(session, waId, Seen)) <==> ReceivedBy(receipts, session, waId, ReadReceipt)
    ensures Reached(AllTurns(receipts), Hit(session, waId, Delivered))
            <==> ReceivedBy(receipts, session, waId, DeliveredReceipt)
  {
    if receipts != [] {
      var n := |receipts| - 1;
      assert receipts[n] in receipts && forall r <- receipts[..n] :: r in receipts;
      ReachedByKind(receipts[..n], session, waId);
      ReceivedSnoc(receipts, session, waId, ReadReceipt);
      ReceivedSnoc(receipts, session, waId, DeliveredReceipt);
      ReachedConcat(AllTurns(receipts[..n]), TurnsOf(receipts[n]), Hit(session, waId, Seen));
      ReachedConcat(AllTurns(receipts[..n]), TurnsOf(receipts[n]), Hit(session, waId, Delivered));
      OneReceiptReaches(receipts[n], Hit(session, waId, Seen));
      OneReceiptReaches(receipts[n], Hit(session, waId, Delivered));
    }
  }

  /** What is dispatched for a message that was sent, given whether read and delivery receipts reached
      it: each event at most once and only then, delivered never after read; and when no store access
      failed, message.read exactly when it was read, message.delivered alone when only delivered. */
  predicate Dispatched(events: seq<Status>, read: bool, delivered: bool, faultless: bool) {
    && (events == [] || events == [Delivered] || events == [Seen] || events == [Delivered, Seen])
    && (Seen in events ==> read) && (Delivered in events ==> delivered)
    && (faultless ==> (read ==> Seen in events) && (delivered && !read ==> events == [Delivered]))
  }

  lemma DispatchedFromSent(asked: seq<Asked>, faultless: bool)
    requires ReceiptStatuses(asked) && (faultless ==> forall i | 0 <= i < |asked| :: asked[i].reported)
    ensures Dispatched(Reported(Sent, asked), Asks(asked, Seen), Asks(asked, Delivered), faultless)
  {
    ReportedFromSent(asked);
    if faultless {
      AllReported(asked);
    }
  }

  predicate Faultless(turns: seq<Turn>) {
    forall i | 0 <= i < |turns| :: turns[i].access.effect.Done?
  }

  /** A sent message after any sequence of receipts: read if and only if a read receipt for it reached
      the store, otherwise delivered if and only if a delivery receipt did; and its events follow. */
  lemma SentMessageByKind(b: Backend, rows: Rows, receipts: seq<Receipt>, id: Id)
    requires forall r <- receipts :: WellFormed(r)
    requires Identified(rows) && AllCover(AllTurns(receipts), rows) && id in rows && rows[id].status == Sent
    ensures var s, row := AfterTurns(b, Tracker(rows, []), AllTurns(receipts)), rows[id];
            var read := ReceivedBy(receipts, row.session, row.waId, ReadReceipt);
            var delivered := ReceivedBy(receipts, row.session, row.waId, DeliveredReceipt);
            && id in s.rows && s.rows[id].status == (if read then Seen else if delivered then Delivered else Sent)
            && Dispatched(EventsOf(s.events, id), read, delivered, Faultless(AllTurns(receipts)))
  {
    var turns, row := AllTurns(receipts), rows[id];
    ReceiptsAreTurns(receipts);
    EachRowByItself(b, rows, turns, id);
    ReachedByKind(receipts, row.session, row.waId);
    ConcerningMembers(turns, row, Seen);
    ConcerningMembers(turns, row, Delivered);
    ConcerningAreReceipts(turns, row);
    ReportedFromSent(Concerning(turns, row));
    if Faultless(turns) {
      DoneIsReported(turns, row);
    }
    DispatchedFromSent(Concerning(turns, row), Faultless(turns));
  }

  lemma {:induction false} DoneIsReported(turns: seq<Turn>, row: Row)
    requires Faultless(turns)
    ensures forall i | 0 <= i < |Concerning(turns, row)| :: Concerning(turns, row)[i].reported
  {
    if turns != [] {
      DoneIsReported(turns[..|turns| - 1], row);
    }
  }

  /** Whatever the rows, duplicates included: the guarded update of Postgres touches only rows of that
      session and non-empty ID that are sent or delivered. */
  lemma PostgresIsGuarded(order: seq<Id>, rows: Rows, h: Hit, id: Id)
    requires id in rows
    ensures Updated(Postgres, order, rows, h).Some?
    ensures var after := Updated(Postgres, order, rows, h).value;
            id in after && (after[id] != rows[id] ==>
              && rows[id].session == h.session && rows[id].waId == h.waId != NO_WA_ID
              && (rows[id].status == Sent || rows[id].status == Delivered)
              && after[id] == rows[id].(status := h.status))
  {
  }

  /** Memory overwrites the first match in its iteration order and nothing else; no match is an error. */
  lemma MemoryUpdatesFirst(order: seq<Id>, rows: Rows, h: Hit)
    ensures Updated(Memory, order, rows, h).None? <==> forall id <- order | id in rows :: !Matches(Memory, rows[id], h)
    ensures var after := Updated(Memory, order, rows, h);
            after.Some? ==> exists i | 0 <= i < |order| ::
              && order[i] in rows && Matches(Memory, rows[order[i]], h)
              && (forall j | 0 <= j < i :: order[j] in rows ==> !Matches(Memory, rows[order[j]], h))
              && after.value == rows[order[i] := Row(h.session, h.waId, h.status)]
  {
    FirstIs(order, rows, h);
  }

  lemma {:induction false} FirstIs(order: seq<Id>, rows: Rows, h: Hit)
    ensures First(Memory, order, rows, h).None? <==> forall id <- order | id in rows :: !Matches(Memory, rows[id], h)
    ensures var id := First(Memory, order, rows, h);
            id.Some? ==> exists i | 0 <= i < |order| ::
              && order[i] == id.value
              && forall j | 0 <= j < i :: order[j] in rows ==> !Matches(Memory, rows[order[j]], h)
  {
    if order != [] {
      FirstIs(order[1..], rows, h);
      assert order[0] in order && forall id <- order[1..] :: id in order;
      assert forall id <- order :: id == order[0] || id in order[1..];
      if order[0] in rows && Matches(Memory, rows[order[0]], h) {
        assert order[0] == First(Memory, order, rows, h).value;
      } else if First(Memory, order, rows, h).Some? {
        var i :| 0 <= i < |order| - 1 && order[1..][i] == First(Memory, order, rows, h).value
                 && forall j | 0 <= j < i :: order[1..][j] in rows ==> !Matches(Memory, rows[order[1..][j]], h);
        assert order[i + 1] == order[1..][i];
        forall j | 0 <= j < i + 1 ensures order[j] in rows ==> !Matches(Memory, rows[order[j]], h) {
          assert j > 0 ==> order[1..][j - 1] == order[j];
        }
      }
    }
  }
}
