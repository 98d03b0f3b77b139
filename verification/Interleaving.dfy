/**
 Message creation without the atomicity it is written for. The code takes no lock between
 reading the rows of a conversation and inserting the next one, so here every worker reads
 row by row, inserts, and asks for the last row id in separate steps, in any interleaving.
 Only a single INSERT is atomic, which the database guarantees. The last row id belongs to
 the one connection that all workers share, so inserts into other tables change it too.
 */
module Interleaving {
  import opened Sequences
  import opened Protocol
  import opened Store

  datatype Work =
    | Scanning(raw: RawMessage, max: int)
    | Inserted(row: Message, at: nat)
    | Returned(row: Message, reply: Message)

  /** One INSERT on the connection, with the row id it set. */
  datatype RowId = OfMessage(id: int) | Elsewhere(id: int)

  /** `inserts` is the history of the connection; a worker that has inserted knows its place in it. */
  datatype Table = Table(rows: seq<Message>, lastId: nat, inserts: seq<RowId>, work: map<nat, Work>)

  datatype Step =
    | Start(worker: nat, raw: RawMessage)
    | See(worker: nat, index: nat)
    | Insert(worker: nat, now: int)
    | InsertElsewhere(worker: nat, id: int)
    | ReadRowId(worker: nat)

  function LastRowId(t: Table): int {
    if t.inserts == [] then 0 else t.inserts[|t.inserts| - 1].id
  }

  function NewRow(t: Table, w: nat, now: int): Message
    requires w in t.work && t.work[w].Scanning?
  {
    Message(t.work[w].raw, t.lastId + 1, now, t.work[w].max + 1)
  }

  function Next(t: Table, step: Step): Table {
    var w := step.worker;
    match step
    case Start(_, raw) =>
      if w in t.work && !t.work[w].Returned? then t else t.(work := t.work[w := Scanning(raw, 0)])
    case See(_, i) =>
      if w !in t.work || !t.work[w].Scanning? || i >= |t.rows| then t
      else
        var raw, max := t.work[w].raw, t.work[w].max;
        if InConversation(raw.from, raw.to)(t.rows[i]) && t.rows[i].internalId > max
        then t.(work := t.work[w := Scanning(raw, t.rows[i].internalId)])
        else t
    case Insert(_, now) =>
      if w !in t.work || !t.work[w].Scanning? then t
      else
        var row := NewRow(t, w, now);
        Table(t.rows + [row], t.lastId + 1, t.inserts + [OfMessage(row.id)], t.work[w := Inserted(row, |t.inserts|)])
    case InsertElsewhere(_, id) =>
      if w in t.work && !t.work[w].Returned? then t else t.(inserts := t.inserts + [Elsewhere(id)])
    case ReadRowId(_) =>
      if w !in t.work || !t.work[w].Inserted? then t
      else
        var row := t.work[w].row;
        t.(work := t.work[w := Returned(row, row.(id := LastRowId(t)))])
  }

  function Run(t: Table, steps: seq<Step>): Table {
    if steps == [] then t
    else Next(Run(t, steps[..|steps| - 1]), steps[|steps| - 1])
  }

  const EMPTY := Table([], 0, [], map[])

  // ----- one conversation, as the list of its messages in insertion order

  /** Every message is numbered at most one past all the messages before it. */
  ghost predicate Climbing(c: seq<Message>) {
    c == [] ||
    (Climbing(c[..|c| - 1]) && 1 <= c[|c| - 1].internalId <= MaxInternalId(c[..|c| - 1]) + 1)
  }

  ghost predicate InOrder(c: seq<Message>) {
    forall k :: 0 <= k < |c| ==> c[k].internalId == k + 1
  }

  ghost predicate NoRepeats(c: seq<Message>) {
    forall i, j :: 0 <= i < j < |c| ==> c[i].internalId != c[j].internalId
  }

  function InternalIds(c: seq<Message>): set<int> {
    set m | m in c :: m.internalId
  }

  /** A climbing list uses exactly the numbers 1..max, and max never exceeds its length. */
  lemma {:induction false} ClimbingIsGapFree(c: seq<Message>)
    requires Climbing(c)
    ensures forall k :: k in InternalIds(c) <==> 1 <= k <= MaxInternalId(c)
    ensures MaxInternalId(c) <= |c|
  {
    if c != [] {
      var init, last := c[..|c| - 1], c[|c| - 1];
      ClimbingIsGapFree(init);
      assert InternalIds(c) == InternalIds(init) + {last.internalId} by {
        assert c == init + [last];
      }
    }
  }

  /** Count and maximum agree exactly for the lists numbered 1, 2, 3, ... in order. */
  lemma {:induction false} CountIsMaxIffInOrder(c: seq<Message>)
    requires Climbing(c)
    ensures MaxInternalId(c) == |c| <==> InOrder(c)
    ensures NoRepeats(c) <==> InOrder(c)
  {
    if c != [] {
      var init, last := c[..|c| - 1], c[|c| - 1];
      CountIsMaxIffInOrder(init);
      ClimbingIsGapFree(init);
      assert InOrder(c) <==> InOrder(init) && last.internalId == |c|;
      if NoRepeats(c) {
        assert NoRepeats(init);
        assert last.internalId !in InternalIds(init);
      }
    }
  }

  // ----- every reachable table

  ghost predicate WorkOk(t: Table, w: nat)
    requires w in t.work
  {
    match t.work[w]
    case Scanning(raw, max) => 0 <= max <= MaxInternalId(Conversation(t.rows, raw.from, raw.to))
    case Inserted(row, at) => row in t.rows && at < |t.inserts| && t.inserts[at] == OfMessage(row.id)
    case Returned(row, reply) => row in t.rows
  }

  /** The row ids of messages rise up to `last`. */
  ghost predicate Rising(inserts: seq<RowId>, last: int) {
    && (forall i :: 0 <= i < |inserts| && inserts[i].OfMessage? ==> inserts[i].id <= last)
    && (forall i, j :: 0 <= i < j < |inserts| && inserts[i].OfMessage? && inserts[j].OfMessage? ==>
          inserts[i].id < inserts[j].id)
  }

  ghost predicate Inv(t: Table) {
    && (forall from, to :: Climbing(Conversation(t.rows, from, to)))
    && (forall i :: 0 <= i < |t.rows| ==> t.rows[i].id == i + 1)
    && t.lastId == |t.rows| && Rising(t.inserts, t.lastId)
    && (forall w :: w in t.work ==> WorkOk(t, w))
  }

  lemma MaxGrows(rows: seq<Message>, m: Message, from: int, to: int)
    ensures MaxInternalId(Conversation(rows, from, to)) <= MaxInternalId(Conversation(rows + [m], from, to))
  {
    ConversationSnoc(rows, m, from, to);
    var c := Conversation(rows, from, to);
    assert (c + [m])[..|c|] == c;
  }

  lemma InsertKeepsClimbing(t: Table, row: Message, from: int, to: int)
    requires Inv(t)
    requires 1 <= row.internalId <= MaxInternalId(Conversation(t.rows, row.raw.from, row.raw.to)) + 1
    ensures Climbing(Conversation(t.rows + [row], from, to))
  {
    ConversationSnoc(t.rows, row, from, to);
    var c := Conversation(t.rows, from, to);
    assert (c + [row])[..|c|] == c;
  }

  lemma InsertKeepsWork(t: Table, w: nat, now: int, u: nat)
    requires u in t.work && WorkOk(t, u) && u != w && w in t.work && t.work[w].Scanning?
    ensures WorkOk(Next(t, Insert(w, now)), u)
  {
    if t.work[u].Scanning? {
      var row := NewRow(t, w, now);
      MaxGrows(t.rows, row, t.work[u].raw.from, t.work[u].raw.to);
    }
  }

  lemma InsertKeepsIds(t: Table, w: nat, now: int)
    requires Inv(t) && w in t.work && t.work[w].Scanning?
    ensures var t' := Next(t, Insert(w, now));
            && (forall i :: 0 <= i < |t'.rows| ==> t'.rows[i].id == i + 1)
            && t'.lastId == |t'.rows| && Rising(t'.inserts, t'.lastId)
  {
  }

  lemma InsertKeepsInv(t: Table, w: nat, now: int)
    requires Inv(t) && w in t.work && t.work[w].Scanning?
    ensures Inv(Next(t, Insert(w, now)))
  {
    var t', row := Next(t, Insert(w, now)), NewRow(t, w, now);
    assert WorkOk(t, w);
    InsertKeepsIds(t, w, now);
    forall from, to ensures Climbing(Conversation(t'.rows, from, to)) {
      InsertKeepsClimbing(t, row, from, to);
    }
    forall u | u in t'.work ensures WorkOk(t', u) {
      if u != w {
        InsertKeepsWork(t, w, now, u);
      }
    }
  }

  lemma SeeKeepsBound(t: Table, w: nat, i: nat)
    requires Inv(t) && w in t.work && t.work[w].Scanning? && i < |t.rows|
    ensures WorkOk(Next(t, See(w, i)), w)
  {
    assert WorkOk(t, w);
    var raw := t.work[w].raw;
    if InConversation(raw.from, raw.to)(t.rows[i]) {
      FilterKeeps(t.rows, t.rows[i], InConversation(raw.from, raw.to));
      MaxIsMaximum(Conversation(t.rows, raw.from, raw.to));
    }
  }

  lemma RisingElsewhere(inserts: seq<RowId>, id: int, last: int)
    requires Rising(inserts, last)
    ensures Rising(inserts + [Elsewhere(id)], last)
  {
  }

  lemma ElsewhereKeepsInv(t: Table, w: nat, id: int)
    requires Inv(t)
    ensures Inv(Next(t, InsertElsewhere(w, id)))
  {
    var t' := Next(t, InsertElsewhere(w, id));
    RisingElsewhere(t.inserts, id, t.lastId);
    forall u | u in t'.work ensures WorkOk(t', u) {
      assert WorkOk(t, u);
    }
  }

  lemma NextKeepsInv(t: Table, step: Step)
    requires Inv(t)
    ensures Inv(Next(t, step))
  {
    var t', w := Next(t, step), step.worker;
    if t' == t {
    } else if step.Insert? {
      InsertKeepsInv(t, w, step.now);
    } else if step.InsertElsewhere? {
      ElsewhereKeepsInv(t, w, step.id);
    } else {
      if step.See? {
        SeeKeepsBound(t, w, step.index);
      }
      forall u | u in t'.work ensures WorkOk(t', u) {
        assert u in t.work ==> WorkOk(t, u);
      }
    }
  }

  lemma {:induction false} RunKeepsInv(t: Table, steps: seq<Step>)
    requires Inv(t)
    ensures Inv(Run(t, steps))
  {
    if steps != [] {
      RunKeepsInv(t, steps[..|steps| - 1]);
      NextKeepsInv(Run(t, steps[..|steps| - 1]), steps[|steps| - 1]);
    }
  }

  /** `t` is the table after some interleaving of the workers' steps. */
  ghost predicate Reachable(t: Table) {
    exists steps :: t == Run(EMPTY, steps)
  }

  lemma Reached(t: Table)
    requires Reachable(t)
    ensures Inv(t)
  {
    var steps :| t == Run(EMPTY, steps);
    RunKeepsInv(EMPTY, steps);
  }

  /**
   Under every interleaving, and however little of the table each scan saw, the internal ids
   of a conversation are exactly 1..max without a gap, max never exceeds the number of its
   rows, and message ids are unique.
   */
  lemma IdsAreGapFree(t: Table, from: int, to: int)
    requires Reachable(t)
    ensures var c := Conversation(t.rows, from, to);
            && (forall k :: k in InternalIds(c) <==> 1 <= k <= MaxInternalId(c))
            && MaxInternalId(c) <= |c| <= |t.rows|
            && (forall i :: 0 <= i < |t.rows| ==> t.rows[i].id == i + 1)
  {
    Reached(t);
    ClimbingIsGapFree(Conversation(t.rows, from, to));
  }

  /**
   The advertised row count is the maximal internal id exactly when no internal id repeats,
   and exactly when the k-th row of the conversation is numbered k.
   */
  lemma CountIsMaxIffNoRepeats(t: Table, from: int, to: int)
    requires Reachable(t)
    ensures var c := Conversation(t.rows, from, to);
            && (MaxInternalId(c) == |c| <==> NoRepeats(c))
            && (NoRepeats(c) <==> InOrder(c))
  {
    Reached(t);
    CountIsMaxIffInOrder(Conversation(t.rows, from, to));
  }

  /** An insert repeats a number exactly when its scan has fallen behind the table. */
  lemma InsertRepeatsIffStale(t: Table, w: nat, now: int)
    requires Reachable(t) && w in t.work && t.work[w].Scanning?
    ensures var t' := Next(t, Insert(w, now));
            var c := Conversation(t.rows, t.work[w].raw.from, t.work[w].raw.to);
            && |t'.rows| == |t.rows| + 1 && t'.rows[..|t.rows|] == t.rows
            && (t'.rows[|t.rows|].internalId in InternalIds(c) <==> t.work[w].max < MaxInternalId(c))
  {
    Reached(t);
    assert WorkOk(t, w);
    ClimbingIsGapFree(Conversation(t.rows, t.work[w].raw.from, t.work[w].raw.to));
  }

  lemma LastRowIdIff(inserts: seq<RowId>, at: nat, id: int, last: int)
    requires Rising(inserts, last) && at < |inserts| && inserts[at] == OfMessage(id)
    ensures inserts[|inserts| - 1].id == id <==> at == |inserts| - 1 || inserts[|inserts| - 1] == Elsewhere(id)
  {
  }

  /**
   The id a worker reports is read back in a step of its own: it is the id of the worker's
   own row exactly when no insert on the connection came after its own, or the latest one
   went to another table and happens to carry the same row id.
   */
  lemma ReportedIdIsOwnIff(t: Table, w: nat)
    requires Reachable(t) && w in t.work && t.work[w].Inserted?
    ensures var t', row := Next(t, ReadRowId(w)), t.work[w].row;
            && w in t'.work && t'.work[w].Returned? && t'.work[w].row == row && row in t.rows
            && t.work[w].at < |t.inserts| && t.inserts[t.work[w].at] == OfMessage(row.id)
            && (t'.work[w].reply == row <==>
                  || t.work[w].at == |t.inserts| - 1
                  || t.inserts[|t.inserts| - 1] == Elsewhere(row.id))
  {
    Reached(t);
    assert WorkOk(t, w);
    LastRowIdIff(t.inserts, t.work[w].at, t.work[w].row.id, t.lastId);
  }

  /** Every insert of the run into this conversation came from a scan that was not behind. */
  ghost predicate AllFresh(t: Table, steps: seq<Step>, from: int, to: int) {
    steps == [] ||
    var before, step := Run(t, steps[..|steps| - 1]), steps[|steps| - 1];
    && AllFresh(t, steps[..|steps| - 1], from, to)
    && (step.Insert? && step.worker in before.work && before.work[step.worker].Scanning?
        && InConversation(from, to)(NewRow(before, step.worker, step.now))
        ==> before.work[step.worker].max == MaxInternalId(Conversation(before.rows, from, to)))
  }

  lemma InOrderSnoc(c: seq<Message>, m: Message)
    ensures InOrder(c + [m]) <==> InOrder(c) && m.internalId == |c| + 1
  {
    var c' := c + [m];
    assert c'[|c|] == m && forall k :: 0 <= k < |c| ==> c'[k] == c[k];
  }

  lemma InsertInOrderIffFresh(t: Table, w: nat, now: int, from: int, to: int)
    requires Inv(t) && w in t.work && t.work[w].Scanning? && InConversation(from, to)(NewRow(t, w, now))
    ensures var c, c' := Conversation(t.rows, from, to), Conversation(Next(t, Insert(w, now)).rows, from, to);
            InOrder(c') <==> InOrder(c) && t.work[w].max == MaxInternalId(c)
  {
    ConversationSnoc(t.rows, NewRow(t, w, now), from, to);
    CountIsMaxIffInOrder(Conversation(t.rows, from, to));
    InOrderSnoc(Conversation(t.rows, from, to), NewRow(t, w, now));
  }

  /**
   When a conversation is numbered 1, 2, 3, ...: exactly if every insert of the whole run was
   made by a worker whose scan was up to date at that moment.
   */
  lemma {:induction false} InOrderIffAllFresh(steps: seq<Step>, from: int, to: int)
    ensures InOrder(Conversation(Run(EMPTY, steps).rows, from, to)) <==> AllFresh(EMPTY, steps, from, to)
  {
    if steps != [] {
      var init, step := steps[..|steps| - 1], steps[|steps| - 1];
      var t := Run(EMPTY, init);
      InOrderIffAllFresh(init, from, to);
      RunKeepsInv(EMPTY, init);
      if step.Insert? && step.worker in t.work && t.work[step.worker].Scanning? {
        ConversationSnoc(t.rows, NewRow(t, step.worker, step.now), from, to);
        if InConversation(from, to)(NewRow(t, step.worker, step.now)) {
          InsertInOrderIffFresh(t, step.worker, step.now, from, to);
        }
      }
    }
  }

  // ----- runs

  lemma NextIsReachable(t: Table, step: Step)
    requires Reachable(t)
    ensures Reachable(Next(t, step))
  {
    var steps :| t == Run(EMPTY, steps);
    var more := steps + [step];
    assert more[..|more| - 1] == steps;
    assert Next(t, step) == Run(EMPTY, more);
  }

  lemma RaceScans(raw: RawMessage)
    ensures Reachable(Table([], 0, [], map[0 := Scanning(raw, 0), 1 := Scanning(raw, 0)]))
  {
    assert EMPTY == Run(EMPTY, []);
    NextIsReachable(EMPTY, Start(0, raw));
    NextIsReachable(Table([], 0, [], map[0 := Scanning(raw, 0)]), Start(1, raw));
  }

  lemma RaceFirstInsert(raw: RawMessage, now: int)
    ensures var a := Message(raw, 1, now, 1);
            Reachable(Table([a], 1, [OfMessage(1)], map[0 := Inserted(a, 0), 1 := Scanning(raw, 0)]))
  {
    var a := Message(raw, 1, now, 1);
    var t0 := Table([], 0, [], map[0 := Scanning(raw, 0), 1 := Scanning(raw, 0)]);
    RaceScans(raw);
    NextIsReachable(t0, Insert(0, now));
    assert [] + [a] == [a] && [] + [OfMessage(1)] == [OfMessage(1)];
    assert Next(t0, Insert(0, now)).work == map[0 := Inserted(a, 0), 1 := Scanning(raw, 0)];
  }

  lemma RaceSecondInsert(raw: RawMessage, now: int)
    ensures var a, b := Message(raw, 1, now, 1), Message(raw, 2, now, 1);
            Reachable(Table([a, b], 2, [OfMessage(1), OfMessage(2)], map[0 := Inserted(a, 0), 1 := Inserted(b, 1)]))
  {
    var a, b := Message(raw, 1, now, 1), Message(raw, 2, now, 1);
    var t1 := Table([a], 1, [OfMessage(1)], map[0 := Inserted(a, 0), 1 := Scanning(raw, 0)]);
    RaceFirstInsert(raw, now);
    NextIsReachable(t1, Insert(1, now));
    assert [a] + [b] == [a, b] && [OfMessage(1)] + [OfMessage(2)] == [OfMessage(1), OfMessage(2)];
    assert Next(t1, Insert(1, now)).work == map[0 := Inserted(a, 0), 1 := Inserted(b, 1)];
  }

  lemma TwoRows(a: Message, b: Message)
    requires a.raw == b.raw && a.internalId == b.internalId == 1
    ensures Conversation([a, b], a.raw.from, a.raw.to) == [a, b] && MaxInternalId([a, b]) == 1
  {
    ConversationSnoc([], a, a.raw.from, a.raw.to);
    ConversationSnoc([a], b, a.raw.from, a.raw.to);
    assert [] + [a] == [a] && [a] + [b] == [a, b];
    assert [a, b][..1] == [a] && [a][..0] == [];
    assert MaxInternalId([a]) == 1;
  }

  /**
   The failing run: two workers scan the same empty conversation before either inserts, and
   the first reads its row id after the second has inserted.
   */
  lemma RaceRepeats(raw: RawMessage, now: int) returns (t: Table)
    ensures Reachable(t)
    ensures var c := Conversation(t.rows, raw.from, raw.to);
            && |c| == 2 && MaxInternalId(c) == 1 && c[0].internalId == c[1].internalId == 1
            && 0 in t.work && t.work[0].Returned? && t.work[0].row.id == 1 && t.work[0].reply.id == 2
  {
    var a, b := Message(raw, 1, now, 1), Message(raw, 2, now, 1);
    RaceSecondInsert(raw, now);
    var t0 := Table([a, b], 2, [OfMessage(1), OfMessage(2)], map[0 := Inserted(a, 0), 1 := Inserted(b, 1)]);
    NextIsReachable(t0, ReadRowId(0));
    t := Next(t0, ReadRowId(0));
    TwoRows(a, b);
  }

  /**
   The same with another table: a user is registered, or a file, before the worker reads its
   row id. Its row is still the last message, but it reports the user's or the file's row id.
   */
  lemma OtherTableMisleads(raw: RawMessage, now: int, id: int) returns (t: Table)
    ensures Reachable(t)
    ensures t.rows != [] && 0 in t.work && t.work[0].Returned? && t.work[0].row == t.rows[|t.rows| - 1]
    ensures t.work[0].row.id == 1 && t.work[0].reply.id == id
  {
    var a := Message(raw, 1, now, 1);
    var t1 := Table([a], 1, [OfMessage(1)], map[0 := Inserted(a, 0), 1 := Scanning(raw, 0)]);
    RaceFirstInsert(raw, now);
    NextIsReachable(t1, InsertElsewhere(2, id));
    var t2 := Next(t1, InsertElsewhere(2, id));
    NextIsReachable(t2, ReadRowId(0));
    t := Next(t2, ReadRowId(0));
  }

  // ----- the atomic case

  function SeeAll(w: nat, order: seq<nat>): seq<Step> {
    seq(|order|, i requires 0 <= i < |order| => See(w, order[i]))
  }

  lemma {:induction false} ScanKeepsTable(t: Table, w: nat, order: seq<nat>)
    requires w in t.work && t.work[w].Scanning?
    ensures var t' := Run(t, SeeAll(w, order));
            && t'.rows == t.rows && t'.lastId == t.lastId && t'.inserts == t.inserts
            && w in t'.work && t'.work[w].Scanning? && t'.work[w].raw == t.work[w].raw
  {
    if order != [] {
      ScanKeepsTable(t, w, order[..|order| - 1]);
      assert SeeAll(w, order)[..|order| - 1] == SeeAll(w, order[..|order| - 1]);
    }
  }

  /** Each row of the conversation that the scan has met is covered by its maximum. */
  lemma {:induction false} ScanMeetsRow(t: Table, w: nat, order: seq<nat>, i: nat)
    requires w in t.work && t.work[w].Scanning? && i < |order| && order[i] < |t.rows|
    requires InConversation(t.work[w].raw.from, t.work[w].raw.to)(t.rows[order[i]])
    ensures var t' := Run(t, SeeAll(w, order));
            w in t'.work && t'.work[w].Scanning? && t.rows[order[i]].internalId <= t'.work[w].max
  {
    var n := |order| - 1;
    ScanKeepsTable(t, w, order[..n]);
    assert SeeAll(w, order)[..n] == SeeAll(w, order[..n]) && SeeAll(w, order)[n] == See(w, order[n]);
    if i < n {
      ScanMeetsRow(t, w, order[..n], i);
    }
  }

  lemma SeenAllIsMax(rows: seq<Message>, raw: RawMessage, order: seq<nat>, max: int)
    requires forall i :: 0 <= i < |order| ==> order[i] < |rows|
    requires forall i :: 0 <= i < |order| && InConversation(raw.from, raw.to)(rows[order[i]])
               ==> rows[order[i]].internalId <= max
    requires forall k :: 0 <= k < |rows| ==> k in order
    requires 0 <= max <= MaxInternalId(Conversation(rows, raw.from, raw.to))
    ensures max == MaxInternalId(Conversation(rows, raw.from, raw.to))
  {
    var c := Conversation(rows, raw.from, raw.to);
    MaxIsMaximum(c);
    if MaxInternalId(c) > 0 {
      var m :| m in c && m.internalId == MaxInternalId(c);
      var k: nat :| k < |rows| && rows[k] == m;
      assert k in order;
      var i :| 0 <= i < |order| && order[i] == k;
    }
  }

  lemma FullScanFindsMax(t: Table, w: nat, order: seq<nat>)
    requires Inv(t) && w in t.work && t.work[w].Scanning?
    requires forall i :: 0 <= i < |order| ==> order[i] < |t.rows|
    requires forall k :: 0 <= k < |t.rows| ==> k in order
    ensures var raw, t' := t.work[w].raw, Run(t, SeeAll(w, order));
            && t'.rows == t.rows && t'.lastId == t.lastId && w in t'.work
            && t'.work[w] == Scanning(raw, MaxInternalId(Conversation(t.rows, raw.from, raw.to)))
  {
    ScanKeepsTable(t, w, order);
    RunKeepsInv(t, SeeAll(w, order));
    var raw, t' := t.work[w].raw, Run(t, SeeAll(w, order));
    assert WorkOk(t', w);
    forall i | 0 <= i < |order| && InConversation(raw.from, raw.to)(t.rows[order[i]])
      ensures t.rows[order[i]].internalId <= t'.work[w].max
    {
      ScanMeetsRow(t, w, order, i);
    }
    SeenAllIsMax(t.rows, raw, order, t'.work[w].max);
  }

  lemma StartAndScan(t: Table, w: nat, raw: RawMessage, order: seq<nat>)
    requires Inv(t) && (w in t.work ==> t.work[w].Returned?)
    requires forall i :: 0 <= i < |order| ==> order[i] < |t.rows|
    requires forall k :: 0 <= k < |t.rows| ==> k in order
    ensures var t' := Run(Next(t, Start(w, raw)), SeeAll(w, order));
            && t'.rows == t.rows && t'.lastId == t.lastId && w in t'.work
            && t'.work[w] == Scanning(raw, MaxInternalId(Conversation(t.rows, raw.from, raw.to)))
  {
    NextKeepsInv(t, Start(w, raw));
    FullScanFindsMax(Next(t, Start(w, raw)), w, order);
  }

  /** Insert and read-back without a step of another worker in between. */
  lemma InsertAndRead(t: Table, w: nat, now: int)
    requires w in t.work && t.work[w].Scanning?
    ensures var row, t' := NewRow(t, w, now), Next(Next(t, Insert(w, now)), ReadRowId(w));
            && t'.rows == t.rows + [row] && t'.lastId == t.lastId + 1
            && w in t'.work && t'.work[w] == Returned(row, row)
  {
  }

  /**
   A worker that is not interrupted and scans every row, in whatever order and with whatever
   repetition, does exactly what the atomic creation does, and reports its own row.
   */
  lemma UninterruptedIsAtomic(t: Table, w: nat, raw: RawMessage, order: seq<nat>, now: int, db: Db)
    requires Reachable(t) && (w in t.work ==> t.work[w].Returned?)
    requires forall i :: 0 <= i < |order| ==> order[i] < |t.rows|
    requires forall k :: 0 <= k < |t.rows| ==> k in order
    requires db.messages == t.rows && db.lastMessage == t.lastId
    ensures var scanned := Run(Next(t, Start(w, raw)), SeeAll(w, order));
            var t' := Next(Next(scanned, Insert(w, now)), ReadRowId(w));
            var (db', created) := CreateMsgByRawMsg(db, raw, now, true);
            && t'.rows == db'.messages && t'.lastId == db'.lastMessage
            && w in t'.work && t'.work[w] == Returned(created.value, created.value)
  {
    Reached(t);
    StartAndScan(t, w, raw, order);
    InsertAndRead(Run(Next(t, Start(w, raw)), SeeAll(w, order)), w, now);
  }
}
