/**
 * The `jobs` table and the two operations that write it: the insert loop of
 * `fetch_from_gmail`, which adds a row per posting whose link is not stored
 * yet (the `link` column is UNIQUE, and a rejected insert is skipped), and
 * `_update_job`, which marks one row applied, seen or ignored.
 *
 * The table is a sequence of rows in insertion order with the next value of
 * the AUTOINCREMENT id; timestamps are integer seconds passed in by the
 * caller.
 */
module JobsDb {
  import opened Wrappers
  import opened EmailParsing

  /** One row of the `jobs` table. `createdAt` is None when the stored
      timestamp is missing or not a valid ISO-8601 text. */
  datatype Job = Job(
    id: int,
    title: Option<string>,
    company: Option<string>,
    location: Option<string>,
    link: string,
    source: string,
    createdAt: Option<int>,
    seenAt: Option<int>,
    applied: bool,
    ignored: bool)

  /** The table contents and the id the next insert receives. */
  datatype Table = Table(rows: seq<Job>, nextId: int)

  /** The links stored in `rows`. */
  function LinkSet(rows: seq<Job>): set<string> {
    set i | 0 <= i < |rows| :: rows[i].link
  }

  /** The UNIQUE constraint on `link`. */
  predicate UniqueLinks(rows: seq<Job>) {
    forall i, j :: 0 <= i < j < |rows| ==> rows[i].link != rows[j].link
  }

  /** AUTOINCREMENT ids: increasing in insertion order, positive, and below
      the next id to hand out. */
  predicate IdsIssued(rows: seq<Job>, nextId: int) {
    && (forall i, j :: 0 <= i < j < |rows| ==> rows[i].id < rows[j].id)
    && (forall i :: 0 <= i < |rows| ==> 1 <= rows[i].id < nextId)
  }

  predicate TableValid(t: Table) {
    t.nextId >= 1 && UniqueLinks(t.rows) && IdsIssued(t.rows, t.nextId)
  }

  /** The row the INSERT of `fetch_from_gmail` writes for a posting. */
  function NewRow(id: int, p: Posting, now: int): Job {
    Job(id, p.title, p.company, p.location, p.link, p.source, Some(now), None, false, false)
  }

  /** One INSERT: a posting whose link is stored already is rejected by the
      UNIQUE constraint and changes nothing. */
  function Insert(t: Table, p: Posting, now: int): Table {
    if p.link in LinkSet(t.rows) then t
    else Table(t.rows + [NewRow(t.nextId, p, now)], t.nextId + 1)
  }

  /** The inserts of a batch, in order. */
  function InsertAll(t: Table, batch: seq<Posting>, now: int): Table
    decreases |batch|
  {
    if batch == [] then t else InsertAll(Insert(t, batch[0], now), batch[1..], now)
  }

  /** The links of a batch of postings. */
  function BatchLinks(batch: seq<Posting>): set<string> {
    set i | 0 <= i < |batch| :: batch[i].link
  }

  // -------------------------------------------------------- insert lemmas

  lemma LinkSetAppend(rows: seq<Job>, j: Job)
    ensures LinkSet(rows + [j]) == LinkSet(rows) + {j.link}
  {
    var r := rows + [j];
    assert r[|rows|] == j;
    forall l | l in LinkSet(rows)
      ensures l in LinkSet(r)
    {
      var i :| 0 <= i < |rows| && rows[i].link == l;
      assert r[i] == rows[i];
    }
  }

  lemma InsertValid(t: Table, p: Posting, now: int)
    requires TableValid(t)
    ensures TableValid(Insert(t, p, now))
  {
    if p.link !in LinkSet(t.rows) {
      var r := t.rows + [NewRow(t.nextId, p, now)];
      forall i | 0 <= i < |t.rows|
        ensures r[i].link != p.link
      {
        assert t.rows[i].link in LinkSet(t.rows);
      }
    }
  }

  /** A batch keeps the table valid. */
  lemma {:induction false} InsertAllValid(t: Table, batch: seq<Posting>, now: int)
    requires TableValid(t)
    ensures TableValid(InsertAll(t, batch, now))
    decreases |batch|
  {
    if batch != [] {
      InsertValid(t, batch[0], now);
      InsertAllValid(Insert(t, batch[0], now), batch[1..], now);
    }
  }

  /** Stored rows are never changed or removed by a batch, and ids only
      grow. */
  lemma {:induction false} InsertAllKeepsRows(t: Table, batch: seq<Posting>, now: int)
    ensures t.rows <= InsertAll(t, batch, now).rows
    ensures t.nextId <= InsertAll(t, batch, now).nextId
    decreases |batch|
  {
    if batch != [] {
      InsertAllKeepsRows(Insert(t, batch[0], now), batch[1..], now);
    }
  }

  /** Every row a batch adds is a fresh row for one of its postings: not
      applied, not ignored, never seen, created now. */
  lemma {:induction false} InsertAllNewRows(t: Table, batch: seq<Posting>, now: int, k: nat)
    requires |t.rows| <= k < |InsertAll(t, batch, now).rows|
    ensures var j := InsertAll(t, batch, now).rows[k];
      exists i :: 0 <= i < |batch| && j == NewRow(j.id, batch[i], now)
    decreases |batch|
  {
    var j := InsertAll(t, batch, now).rows[k];
    var t1 := Insert(t, batch[0], now);
    InsertAllKeepsRows(t1, batch[1..], now);
    if k < |t1.rows| {
      assert j == t1.rows[k] == NewRow(t.nextId, batch[0], now);
    } else {
      InsertAllNewRows(t1, batch[1..], now, k);
      var i :| 0 <= i < |batch[1..]| && j == NewRow(j.id, batch[1..][i], now);
      assert batch[1..][i] == batch[i + 1];
    }
  }

  /** After a batch the stored links are the old ones and the batch's. */
  lemma {:induction false} InsertAllLinks(t: Table, batch: seq<Posting>, now: int)
    ensures LinkSet(InsertAll(t, batch, now).rows) == LinkSet(t.rows) + BatchLinks(batch)
    decreases |batch|
  {
    if batch != [] {
      var t1 := Insert(t, batch[0], now);
      InsertAllLinks(t1, batch[1..], now);
      if batch[0].link !in LinkSet(t.rows) {
        LinkSetAppend(t.rows, NewRow(t.nextId, batch[0], now));
      }
      assert LinkSet(t1.rows) == LinkSet(t.rows) + {batch[0].link};
      assert BatchLinks(batch) == {batch[0].link} + BatchLinks(batch[1..]) by {
        forall l | l in BatchLinks(batch)
          ensures l in {batch[0].link} + BatchLinks(batch[1..])
        {
          var i :| 0 <= i < |batch| && batch[i].link == l;
          if i > 0 {
            assert batch[1..][i - 1] == batch[i];
          }
        }
        forall l | l in BatchLinks(batch[1..])
          ensures l in BatchLinks(batch)
        {
          var i :| 0 <= i < |batch[1..]| && batch[1..][i].link == l;
          assert batch[i + 1] == batch[1..][i];
        }
        assert batch[0].link in BatchLinks(batch);
      }
    }
  }

  /** With unique links there are as many links as rows. */
  lemma {:induction false} LinkSetSize(rows: seq<Job>)
    requires UniqueLinks(rows)
    ensures |LinkSet(rows)| == |rows|
  {
    if rows != [] {
      var n := |rows|;
      var init := rows[..n - 1];
      assert rows == init + [rows[n - 1]];
      LinkSetSize(init);
      LinkSetAppend(init, rows[n - 1]);
      assert rows[n - 1].link !in LinkSet(init) by {
        forall i | 0 <= i < |init|
          ensures init[i].link != rows[n - 1].link
        {
          assert init[i] == rows[i];
        }
      }
    }
  }

  /** A batch adds exactly one row per link that was not stored yet. */
  lemma InsertAllCount(t: Table, batch: seq<Posting>, now: int)
    requires TableValid(t)
    ensures |InsertAll(t, batch, now).rows| == |t.rows| + |BatchLinks(batch) - LinkSet(t.rows)|
  {
    var t2 := InsertAll(t, batch, now);
    InsertAllValid(t, batch, now);
    InsertAllLinks(t, batch, now);
    LinkSetSize(t.rows);
    LinkSetSize(t2.rows);
    var old_ := LinkSet(t.rows);
    var added := BatchLinks(batch) - old_;
    assert LinkSet(t2.rows) == old_ + added;
    assert old_ * added == {};
  }

  /** A batch whose links are all stored changes nothing. */
  lemma {:induction false} InsertAllStored(t: Table, batch: seq<Posting>, now: int)
    requires BatchLinks(batch) <= LinkSet(t.rows)
    ensures InsertAll(t, batch, now) == t
    decreases |batch|
  {
    if batch != [] {
      assert batch[0].link in BatchLinks(batch);
      assert BatchLinks(batch[1..]) <= BatchLinks(batch) by {
        forall l | l in BatchLinks(batch[1..])
          ensures l in BatchLinks(batch)
        {
          var i :| 0 <= i < |batch[1..]| && batch[1..][i].link == l;
          assert batch[i + 1] == batch[1..][i];
        }
      }
      InsertAllStored(t, batch[1..], now);
    }
  }

  /** Inserting the same batch again adds nothing. */
  lemma InsertAllTwice(t: Table, batch: seq<Posting>, now: int, later: int)
    ensures InsertAll(InsertAll(t, batch, now), batch, later) == InsertAll(t, batch, now)
  {
    InsertAllLinks(t, batch, now);
    InsertAllStored(InsertAll(t, batch, now), batch, later);
  }

  /** Two batches one after the other are one batch of both. */
  lemma {:induction false} InsertAllAppend(t: Table, a: seq<Posting>, b: seq<Posting>, now: int)
    ensures InsertAll(t, a + b, now) == InsertAll(InsertAll(t, a, now), b, now)
    decreases |a|
  {
    if a == [] {
      assert a + b == b;
    } else {
      assert (a + b)[0] == a[0];
      assert (a + b)[1..] == a[1..] + b;
      InsertAllAppend(Insert(t, a[0], now), a[1..], b, now);
    }
  }

  // -------------------------------------------------------------- updates

  /** The three commands that go through `_update_job`. */
  datatype Mark = Applied | Seen | Ignored

  /** The row after `UPDATE jobs SET ... WHERE id=?`: `seen_at` is always set,
      and `applied` or `ignored` for those commands. */
  function Marked(j: Job, mark: Mark, now: int): (r: Job)
    ensures r.seenAt == Some(now)
    ensures r.applied == (j.applied || mark == Applied)
    ensures r.ignored == (j.ignored || mark == Ignored)
    ensures r.(seenAt := j.seenAt, applied := j.applied, ignored := j.ignored) == j
  {
    match mark
    case Applied => j.(applied := true, seenAt := Some(now))
    case Seen => j.(seenAt := Some(now))
    case Ignored => j.(ignored := true, seenAt := Some(now))
  }

  predicate HasId(rows: seq<Job>, id: int) {
    exists i :: 0 <= i < |rows| && rows[i].id == id
  }

  /** The table after the update: every row with the id is marked. */
  function Updated(rows: seq<Job>, id: int, mark: Mark, now: int): (r: seq<Job>)
    ensures |r| == |rows|
    ensures forall i :: 0 <= i < |rows| ==> r[i] == if rows[i].id == id then Marked(rows[i], mark, now) else rows[i]
  {
    seq(|rows|, i requires 0 <= i < |rows| => if rows[i].id == id then Marked(rows[i], mark, now) else rows[i])
  }

  /** An unknown id leaves the table as it is. */
  lemma UpdateUnknownId(rows: seq<Job>, id: int, mark: Mark, now: int)
    requires !HasId(rows, id)
    ensures Updated(rows, id, mark, now) == rows
  {
  }

  /** An update changes one row only, and only its status columns; the
      table stays valid. */
  lemma UpdateOneRow(t: Table, i: nat, mark: Mark, now: int)
    requires TableValid(t) && i < |t.rows|
    ensures Updated(t.rows, t.rows[i].id, mark, now) == t.rows[i := Marked(t.rows[i], mark, now)]
    ensures TableValid(Table(Updated(t.rows, t.rows[i].id, mark, now), t.nextId))
  {
    var r := Updated(t.rows, t.rows[i].id, mark, now);
    forall k | 0 <= k < |t.rows| && k != i
      ensures t.rows[k].id != t.rows[i].id
    {
      if k < i {
        assert t.rows[k].id < t.rows[i].id;
      } else {
        assert t.rows[i].id < t.rows[k].id;
      }
    }
    assert r == t.rows[i := Marked(t.rows[i], mark, now)];
  }

  // ----------------------------------------------------------------- fetch

  /** One Gmail message: its `Subject` header (None when it has none) and
      the anchors of its HTML body (None when no HTML part was found). */
  datatype Message = Message(subject: Option<string>, html: Option<seq<Anchor>>)

  const NoSubject: string := "(no subject)"

  /** The `source` column of rows that come from alert mails. */
  const EmailSource: string := "LinkedIn Email"

  /** The postings a message contributes: none unless it is an alert with an
      HTML body. */
  function MessagePostings(m: Message): (r: seq<Posting>)
    ensures !IsJobAlertSubject(m.subject.GetOr(NoSubject)) ==> r == []
    ensures m.html.None? ==> r == []
    ensures forall p :: p in r ==> p.source == EmailSource && '?' !in p.link
    ensures IsJobAlertSubject(m.subject.GetOr(NoSubject)) && m.html.Some? ==>
      r == Extracted(m.html.value, EmailSource)
  {
    if !IsJobAlertSubject(m.subject.GetOr(NoSubject)) || m.html.None? then []
    else Extracted(m.html.value, EmailSource)
  }

  /** The postings of all messages, in message order. */
  function AllPostings(ms: seq<Message>): seq<Posting> {
    if ms == [] then [] else AllPostings(ms[..|ms| - 1]) + MessagePostings(ms[|ms| - 1])
  }

  /** The table after a fetch over these messages. */
  function Fetched(t: Table, ms: seq<Message>, now: int): Table {
    InsertAll(t, AllPostings(ms), now)
  }

  /** The fetch over one more message inserts that message's postings. */
  lemma FetchStep(t: Table, ms: seq<Message>, i: nat, now: int)
    requires i < |ms|
    ensures InsertAll(t, AllPostings(ms[..i + 1]), now)
         == InsertAll(InsertAll(t, AllPostings(ms[..i]), now), MessagePostings(ms[i]), now)
  {
    assert ms[..i + 1][..i] == ms[..i];
    InsertAllAppend(t, AllPostings(ms[..i]), MessagePostings(ms[i]), now);
  }

  /** Fetching the same messages again adds nothing. */
  lemma FetchTwice(t: Table, ms: seq<Message>, now: int, later: int)
    ensures Fetched(Fetched(t, ms, now), ms, later) == Fetched(t, ms, now)
  {
    InsertAllTwice(t, AllPostings(ms), now, later);
  }

  /** A fetch adds exactly one row per new link found in alert mails and
      changes no stored row. */
  lemma FetchAddsNewLinks(t: Table, ms: seq<Message>, now: int)
    requires TableValid(t)
    ensures t.rows <= Fetched(t, ms, now).rows
    ensures |Fetched(t, ms, now).rows| == |t.rows| + |BatchLinks(AllPostings(ms)) - LinkSet(t.rows)|
    ensures LinkSet(Fetched(t, ms, now).rows) == LinkSet(t.rows) + BatchLinks(AllPostings(ms))
  {
    InsertAllKeepsRows(t, AllPostings(ms), now);
    InsertAllCount(t, AllPostings(ms), now);
    InsertAllLinks(t, AllPostings(ms), now);
  }

  // ----------------------------------------------------------------- store

  /** The database: the `jobs` table and its AUTOINCREMENT counter. */
  class JobStore {
    var rows: seq<Job>
    var nextId: int

    predicate Valid()
      reads this
    {
      TableValid(Snapshot())
    }

    function Snapshot(): Table
      reads this
    {
      Table(rows, nextId)
    }

    /** A new, empty database. */
    constructor ()
      ensures Valid()
      ensures rows == [] && nextId == 1
    {
      rows := [];
      nextId := 1;
    }

    /** The insert loop of `fetch_from_gmail` over one mail's postings:
        try each INSERT, count the ones the UNIQUE constraint lets through. */
    method InsertBatch(batch: seq<Posting>, now: int) returns (added: nat)
      requires Valid()
      modifies this
      ensures Valid()
      ensures Snapshot() == InsertAll(old(Snapshot()), batch, now)
      ensures added == |rows| - |old(rows)|
    {
      added := 0;
      var i := 0;
      while i < |batch|
        invariant 0 <= i <= |batch|
        invariant Valid()
        invariant InsertAll(Snapshot(), batch[i..], now) == InsertAll(old(Snapshot()), batch, now)
        invariant |old(rows)| <= |rows| && added == |rows| - |old(rows)|
      {
        var p := batch[i];
        InsertValid(Snapshot(), p, now);
        assert batch[i..][1..] == batch[i + 1..];
        if p.link !in LinkSet(rows) {
          rows := rows + [NewRow(nextId, p, now)];
          nextId := nextId + 1;
          added := added + 1;
        }
        i := i + 1;
      }
    }

    /** `_update_job`: mark the row with this id, or report that there is
        none (the command then exits with status 1 and nothing changes). */
    method UpdateJob(id: int, mark: Mark, now: int) returns (found: bool)
      requires Valid()
      modifies this
      ensures Valid()
      ensures found <==> HasId(old(rows), id)
      ensures rows == Updated(old(rows), id, mark, now) && nextId == old(nextId)
    {
      var i := 0;
      while i < |rows|
        invariant 0 <= i <= |rows|
        invariant forall k :: 0 <= k < i ==> rows[k].id != id
      {
        if rows[i].id == id {
          UpdateOneRow(Snapshot(), i, mark, now);
          rows := rows[i := Marked(rows[i], mark, now)];
          return true;
        }
        i := i + 1;
      }
      UpdateUnknownId(rows, id, mark, now);
      return false;
    }

    /** One pass of the message loop of `fetch_from_gmail`: skip a mail that
        is not an alert or has no HTML body, otherwise extract its postings
        and insert them. */
    method FetchMessage(m: Message, now: int) returns (added: nat)
      requires Valid()
      modifies this
      ensures Valid()
      ensures Snapshot() == InsertAll(old(Snapshot()), MessagePostings(m), now)
      ensures added == |rows| - |old(rows)|
    {
      var subject := m.subject.GetOr(NoSubject);
      if !IsJobAlertSubject(subject) || m.html.None? {
        return 0;
      }
      var jobs := ParseEmailPayload(m.html.value, EmailSource);
      added := InsertBatch(jobs, now);
    }

    /** `fetch_from_gmail` after the API calls: for every alert mail with an
        HTML body, extract its postings and insert them; return how many rows
        were added. */
    method Fetch(messages: seq<Message>, now: int) returns (totalNew: nat)
      requires Valid()
      modifies this
      ensures Valid()
      ensures Snapshot() == Fetched(old(Snapshot()), messages, now)
      ensures totalNew == |rows| - |old(rows)|
    {
      totalNew := 0;
      var i := 0;
      while i < |messages|
        invariant 0 <= i <= |messages|
        invariant Valid()
        invariant Snapshot() == InsertAll(old(Snapshot()), AllPostings(messages[..i]), now)
        invariant |old(rows)| <= |rows| && totalNew == |rows| - |old(rows)|
      {
        var added := FetchMessage(messages[i], now);
        totalNew := totalNew + added;
        FetchStep(old(Snapshot()), messages, i, now);
        i := i + 1;
      }
      assert messages[..i] == messages;
    }
  }
}
