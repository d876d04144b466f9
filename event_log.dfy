/** The battle state-event log and the cursor discipline its readers share.
  *
  * The battle provider stamps every state message with an id and keeps the most recent
  * ones in a list. A reader (the battle page, the matchmaking page) remembers the largest
  * id it has handled; on every change of the list it handles, in list order, exactly the
  * events whose id is above that cursor and moves the cursor up to the largest id it saw. */
module EventLog {
  import opened Json

  datatype StateEvent = StateEvent(id: int, msg: Json)

  predicate IdsIncreasing(log: seq<StateEvent>) {
    forall i, j :: 0 <= i < j < |log| ==> log[i].id < log[j].id
  }

  /** `log.filter(e => e.id > cursor)`. */
  function After(log: seq<StateEvent>, cursor: int): (r: seq<StateEvent>)
    ensures |r| <= |log|
    ensures forall i :: 0 <= i < |r| ==> r[i].id > cursor && r[i] in log
  {
    if log == [] then []
    else if log[0].id > cursor then [log[0]] + After(log[1..], cursor)
    else After(log[1..], cursor)
  }

  /** The cursor after handling `evs`: `cursor = Math.max(cursor, ev.id)` for each. */
  function Advance(cursor: int, evs: seq<StateEvent>): int
    decreases |evs|
  {
    if evs == [] then cursor
    else Advance(if evs[0].id > cursor then evs[0].id else cursor, evs[1..])
  }

  /** Applying a handler to each message in turn. */
  function Replay<S>(step: (S, Json) -> S, s: S, evs: seq<StateEvent>): S {
    if evs == [] then s else Replay(step, step(s, evs[0].msg), evs[1..])
  }

  /** One run of a reader over the current log: the new reader state and the new cursor. */
  function Consume<S>(step: (S, Json) -> S, s: S, cursor: int, log: seq<StateEvent>): (S, int) {
    var unseen := After(log, cursor);
    (Replay(step, s, unseen), Advance(cursor, unseen))
  }

  // ---------------------------------------------------------------------
  // Algebra of the three folds

  lemma {:induction false} AfterAppend(a: seq<StateEvent>, b: seq<StateEvent>, cursor: int)
    ensures After(a + b, cursor) == After(a, cursor) + After(b, cursor)
  {
    if a != [] {
      assert (a + b)[1..] == a[1..] + b;
      AfterAppend(a[1..], b, cursor);
    } else {
      assert a + b == b;
    }
  }

  lemma {:induction false} ReplayAppend<S>(step: (S, Json) -> S, s: S, a: seq<StateEvent>, b: seq<StateEvent>)
    ensures Replay(step, s, a + b) == Replay(step, Replay(step, s, a), b)
  {
    if a != [] {
      assert (a + b)[1..] == a[1..] + b;
      ReplayAppend(step, step(s, a[0].msg), a[1..], b);
    } else {
      assert a + b == b;
    }
  }

  lemma {:induction false} AdvanceAppend(cursor: int, a: seq<StateEvent>, b: seq<StateEvent>)
    ensures Advance(cursor, a + b) == Advance(Advance(cursor, a), b)
    decreases |a|
  {
    if a != [] {
      assert (a + b)[1..] == a[1..] + b;
      AdvanceAppend(if a[0].id > cursor then a[0].id else cursor, a[1..], b);
    } else {
      assert a + b == b;
    }
  }

  /** The new cursor is the largest of the old cursor and the ids handled. */
  lemma {:induction false} AdvanceIsMax(cursor: int, evs: seq<StateEvent>)
    ensures Advance(cursor, evs) >= cursor
    ensures forall i :: 0 <= i < |evs| ==> Advance(cursor, evs) >= evs[i].id
    ensures Advance(cursor, evs) == cursor || exists i :: 0 <= i < |evs| && Advance(cursor, evs) == evs[i].id
    decreases |evs|
  {
    if evs != [] {
      var c' := if evs[0].id > cursor then evs[0].id else cursor;
      AdvanceIsMax(c', evs[1..]);
      var r := Advance(cursor, evs);
      forall i | 0 <= i < |evs| ensures r >= evs[i].id {
        if i > 0 { assert evs[i] == evs[1..][i - 1]; }
      }
      if r != cursor && r != evs[0].id {
        var j :| 0 <= j < |evs[1..]| && r == evs[1..][j].id;
        assert r == evs[j + 1].id;
      }
    }
  }

  lemma {:induction false} AfterNone(log: seq<StateEvent>, cursor: int)
    requires forall i :: 0 <= i < |log| ==> log[i].id <= cursor
    ensures After(log, cursor) == []
  {
    if log != [] {
      AfterNone(log[1..], cursor);
    }
  }

  lemma {:induction false} AfterAll(log: seq<StateEvent>, cursor: int)
    requires forall i :: 0 <= i < |log| ==> log[i].id > cursor
    ensures After(log, cursor) == log
  {
    if log != [] {
      AfterAll(log[1..], cursor);
    }
  }

  /** After a run, the cursor is at or above every id in the log it read. */
  lemma CursorCoversLog<S>(step: (S, Json) -> S, s: S, cursor: int, log: seq<StateEvent>)
    ensures Consume(step, s, cursor, log).1 >= cursor
    ensures forall i :: 0 <= i < |log| ==> log[i].id <= Consume(step, s, cursor, log).1
  {
    var unseen := After(log, cursor);
    AdvanceIsMax(cursor, unseen);
    forall i | 0 <= i < |log| ensures log[i].id <= Advance(cursor, unseen) {
      if log[i].id > cursor {
        MemberOfAfter(log, cursor, i);
      }
    }
  }

  lemma {:induction false} MemberOfAfter(log: seq<StateEvent>, cursor: int, i: int)
    requires 0 <= i < |log| && log[i].id > cursor
    ensures log[i] in After(log, cursor)
  {
    if i > 0 {
      MemberOfAfter(log[1..], cursor, i - 1);
    }
  }

  // ---------------------------------------------------------------------
  // Reader properties

  /** Running a reader again over a log it has already read changes nothing. */
  lemma ConsumeIdempotent<S>(step: (S, Json) -> S, s: S, cursor: int, log: seq<StateEvent>)
    ensures Consume(step, Consume(step, s, cursor, log).0, Consume(step, s, cursor, log).1, log)
         == Consume(step, s, cursor, log)
  {
    var (s1, c1) := Consume(step, s, cursor, log);
    CursorCoversLog(step, s, cursor, log);
    AfterNone(log, c1);
  }

  /** Only events above the cursor are handled; the rest are skipped outright. */
  lemma ConsumeSkipsSeen<S>(step: (S, Json) -> S, s: S, cursor: int, seen: seq<StateEvent>, log: seq<StateEvent>)
    requires forall i :: 0 <= i < |seen| ==> seen[i].id <= cursor
    ensures Consume(step, s, cursor, seen + log) == Consume(step, s, cursor, log)
  {
    AfterAppend(seen, log, cursor);
    AfterNone(seen, cursor);
    assert After(seen + log, cursor) == After(log, cursor);
  }

  /** Reading the log at two moments gives the state that reading the whole history once
    * gives, as long as the second read still holds every event added since the first
    * (`log2` is the history with at most the first `k` events evicted, `k` no more than
    * the length of the first log). */
  lemma ConsumeTwoBatches<S>(step: (S, Json) -> S, s: S, cursor: int,
                             log1: seq<StateEvent>, more: seq<StateEvent>, k: int)
    requires IdsIncreasing(log1 + more)
    requires 0 <= k <= |log1|
    ensures var (s1, c1) := Consume(step, s, cursor, log1);
            Consume(step, s1, c1, log1[k..] + more) == Consume(step, s, cursor, log1 + more)
  {
    var all := log1 + more;
    var f1 := After(log1, cursor);
    var fm := After(more, cursor);
    var (s1, c1) := Consume(step, s, cursor, log1);
    CursorCoversLog(step, s, cursor, log1);
    // Every event of the first log is at or below the new cursor.
    assert forall i :: 0 <= i < |log1[k..]| ==> log1[k..][i].id <= c1 by {
      forall i | 0 <= i < |log1[k..]| ensures log1[k..][i].id <= c1 {
        assert log1[k..][i] == log1[i + k];
      }
    }
    ConsumeSkipsSeen(step, s1, c1, log1[k..], more);
    AdvanceIsMax(cursor, f1);
    if c1 == cursor {
      // Nothing of the first log was above the cursor, so the first run changed nothing.
      assert f1 == [];
      ConsumeSkipsSeen(step, s, cursor, log1, more);
    } else {
      // The cursor now sits on an id of the first log; everything added since is above it.
      var i :| 0 <= i < |f1| && c1 == f1[i].id;
      var p :| 0 <= p < |log1| && log1[p] == f1[i];
      assert forall j :: 0 <= j < |more| ==> more[j].id > c1 by {
        forall j | 0 <= j < |more| ensures more[j].id > c1 {
          assert more[j] == all[|log1| + j] && log1[p] == all[p];
        }
      }
      AfterAll(more, c1);
      AfterAll(more, cursor);
      AfterAppend(log1, more, cursor);
      ReplayAppend(step, s, f1, more);
      AdvanceAppend(cursor, f1, more);
    }
  }
}
