/** The score table and the answers of the two commands against the submissions made: over every run from an
    empty board. */
module ScoreHistory {
  import opened Common
  import opened ScoreBoard

  const EMPTY_BOARD := Board(map[], [])

  function After(cfg: BoardConfig, steps: seq<Step>): Board {
    if steps == [] then EMPTY_BOARD
    else Apply(cfg, After(cfg, steps[..|steps| - 1]), steps[|steps| - 1]).0
  }

  function AnswerAt(cfg: BoardConfig, steps: seq<Step>, i: nat): Outcome
    requires i < |steps|
  {
    Apply(cfg, After(cfg, steps[..i]), steps[i]).1
  }

  // ---------------------------------------------------------------------------------------------
  // What the history says

  predicate Submits(steps: seq<Step>, i: int, s: Slot) {
    0 <= i < |steps| && steps[i].RecordScore? && SlotOf(steps[i].entry) == s
  }

  predicate Better(a: int, b: int, sortMode: nat) {
    if sortMode == 0 then a > b else a < b
  }

  /** In normal mode the last of the slot's submissions whose score is best, in force mode the last. */
  ghost predicate Chosen(cfg: BoardConfig, steps: seq<Step>, s: Slot, i: int) {
    && Submits(steps, i, s)
    && forall j :: Submits(steps, j, s) && j != i ==>
         if cfg.updateMode != 0 then j < i
         else if j < i then !Better(steps[j].entry.score, steps[i].entry.score, cfg.sortMode)
         else Better(steps[i].entry.score, steps[j].entry.score, cfg.sortMode)
  }

  /** The step stored this file for the slot, and was told so. */
  predicate Stores(cfg: BoardConfig, steps: seq<Step>, j: int, s: Slot, f: nat) {
    && 0 <= j < |steps| && steps[j].RecordData? && (steps[j].userId, steps[j].characterId) == s
    && steps[j].fileId == f && AnswerAt(cfg, steps, j) == DataStored
  }

  ghost predicate StoredSince(cfg: BoardConfig, steps: seq<Step>, s: Slot, i: int, f: nat) {
    exists j :: i < j && Stores(cfg, steps, j, s, f)
  }

  /** The file stored for the slot since submission i. */
  ghost predicate DataSince(cfg: BoardConfig, steps: seq<Step>, s: Slot, i: int, data: Option<nat>) {
    forall f: nat :: StoredSince(cfg, steps, s, i, f) <==> data == Some(f)
  }

  /** At most one submission is the chosen one. */
  lemma ChosenIsOne(cfg: BoardConfig, steps: seq<Step>, s: Slot, i: int, j: int)
    requires Chosen(cfg, steps, s, i) && Chosen(cfg, steps, s, j)
    ensures i == j
  {
  }

  // ---------------------------------------------------------------------------------------------
  // Cached rows are the table's

  ghost predicate Agrees(cfg: BoardConfig, b: Board) {
    && TableOk(b.table) && DistinctSlots(b.rows) && Sorted(b.rows, cfg.sortMode) && |b.rows| <= cfg.rankLimit
    && forall i :: 0 <= i < |b.rows| ==> SlotOf(b.rows[i]) in b.table && b.table[SlotOf(b.rows[i])] == b.rows[i]
  }

  lemma InsertedFrom(rows: seq<ScoreEntry>, e: ScoreEntry, cfg: BoardConfig, j: nat)
    requires DistinctSlots(rows) && Sorted(rows, cfg.sortMode) && j < |InsertRows(rows, e, cfg)|
    ensures var row := InsertRows(rows, e, cfg)[j];
      row == e || (row in rows && SlotOf(row) != SlotOf(e))
  {
    var base := Without(rows, SlotOf(e));
    var p := InsertPos(base, e, cfg.sortMode);
    WithoutFacts(rows, SlotOf(e), cfg.sortMode);
    forall i | 0 <= i < |base|
      ensures base[i] in rows && SlotOf(base[i]) != SlotOf(e)
    {
      assert SlotOf(base[i]) in Slots(base);
    }
    if Fits(base, p, cfg) {
      GrownAt(base, e, cfg.sortMode, j);
    }
  }

  lemma StepAgrees(cfg: BoardConfig, b: Board, step: Step)
    requires Agrees(cfg, b)
    ensures Agrees(cfg, Apply(cfg, b, step).0)
  {
    var after := Apply(cfg, b, step).0;
    if step.RecordScore? && Accepts(b.table, cfg, Submitted(step.entry)) {
      var e := Submitted(step.entry);
      InsertShape(b.rows, e, cfg);
      forall j | 0 <= j < |after.rows|
        ensures SlotOf(after.rows[j]) in after.table && after.table[SlotOf(after.rows[j])] == after.rows[j]
      {
        InsertedFrom(b.rows, e, cfg, j);
      }
    } else if step.RecordData? && Apply(cfg, b, step).1 == DataStored {
      var slot := (step.userId, step.characterId);
      DataKeepsShape(b.rows, slot, step.fileId, cfg.sortMode);
      forall j | 0 <= j < |after.rows|
        ensures SlotOf(after.rows[j]) in after.table && after.table[SlotOf(after.rows[j])] == after.rows[j]
      {
        assert b.table[SlotOf(b.rows[j])] == b.rows[j];
        assert j != SlotIndex(b.rows, slot) ==> SlotOf(b.rows[j]) != slot;
      }
    }
  }

  lemma {:induction false} RunAgrees(cfg: BoardConfig, steps: seq<Step>)
    ensures Agrees(cfg, After(cfg, steps))
  {
    hide Apply;
    if steps != [] {
      RunAgrees(cfg, steps[..|steps| - 1]);
      StepAgrees(cfg, After(cfg, steps[..|steps| - 1]), steps[|steps| - 1]);
    }
  }

  // ---------------------------------------------------------------------------------------------
  // One step on one slot

  /** What one step does to the row of one slot. */
  lemma RowAfter(cfg: BoardConfig, b: Board, step: Step, s: Slot)
    requires Agrees(cfg, b)
    ensures var (after, answer) := Apply(cfg, b, step);
      if step.RecordScore? && SlotOf(step.entry) == s then
        && (answer == NotBest <==> cfg.updateMode == 0 && s in b.table
                                   && Better(b.table[s].score, step.entry.score, cfg.sortMode))
        && (answer == NotBest ==> after.table == b.table)
        && (answer != NotBest ==> answer.Ranked? && s in after.table && after.table[s] == step.entry.(dataId := None))
      else if step.RecordData? && (step.userId, step.characterId) == s && answer == DataStored then
        s in b.table && b.table[s].dataId == None
        && s in after.table && after.table[s] == b.table[s].(dataId := Some(step.fileId))
      else (s in after.table <==> s in b.table) && (s in b.table ==> after.table[s] == b.table[s])
  {
    if step.RecordData? && Apply(cfg, b, step).1 == DataStored {
      var slot := (step.userId, step.characterId);
      assert b.table[slot] == b.rows[SlotIndex(b.rows, slot)];
    }
  }

  // ---------------------------------------------------------------------------------------------
  // The table is what was submitted

  /** One step more. */
  predicate Grows(before: seq<Step>, steps: seq<Step>) {
    |steps| == |before| + 1 && steps[..|before|] == before
  }

  lemma SubmitsBefore(before: seq<Step>, steps: seq<Step>, i: int, s: Slot)
    requires Grows(before, steps)
    ensures i != |before| ==> (Submits(steps, i, s) <==> Submits(before, i, s))
    ensures Submits(before, i, s) ==> before[i] == steps[i]
  {
  }

  lemma StoresBefore(cfg: BoardConfig, before: seq<Step>, steps: seq<Step>, j: int, s: Slot, f: nat)
    requires Grows(before, steps) && j != |before|
    ensures Stores(cfg, steps, j, s, f) <==> Stores(cfg, before, j, s, f)
  {
    hide Apply;
    if 0 <= j < |before| {
      assert before[..j] == steps[..j];
    }
  }

  /** What is stored since, with one step more. */
  lemma StoredOneMore(cfg: BoardConfig, before: seq<Step>, steps: seq<Step>, s: Slot, i: int, f: nat)
    requires Grows(before, steps) && i < |before|
    ensures StoredSince(cfg, steps, s, i, f) <==>
            StoredSince(cfg, before, s, i, f) || Stores(cfg, steps, |before|, s, f)
  {
    hide Stores;
    forall j | j != |before|
      ensures Stores(cfg, steps, j, s, f) <==> Stores(cfg, before, j, s, f)
    {
      StoresBefore(cfg, before, steps, j, s, f);
    }
    if StoredSince(cfg, before, s, i, f) {
      var j :| i < j && Stores(cfg, before, j, s, f);
      StoredIsStep(cfg, before, j, s, f);
      assert Stores(cfg, steps, j, s, f);
    }
    if StoredSince(cfg, steps, s, i, f) && !Stores(cfg, steps, |before|, s, f) {
      var j :| i < j && Stores(cfg, steps, j, s, f);
      assert Stores(cfg, before, j, s, f);
    }
  }

  lemma StoredIsStep(cfg: BoardConfig, steps: seq<Step>, j: int, s: Slot, f: nat)
    requires Stores(cfg, steps, j, s, f)
    ensures 0 <= j < |steps| && steps[j].RecordData? && steps[j].fileId == f
  {
  }

  /** A step that stores nothing for the slot leaves what was stored since; one that stores is the first. */
  lemma DataOneMore(
    cfg: BoardConfig, before: seq<Step>, steps: seq<Step>, s: Slot, i: int, was: Option<nat>, now: Option<nat>)
    requires Grows(before, steps) && i < |before| && DataSince(cfg, before, s, i, was)
    requires forall f: nat :: Stores(cfg, steps, |before|, s, f) ==> was == None && now == Some(f)
    requires (forall f: nat :: !Stores(cfg, steps, |before|, s, f)) ==> now == was
    ensures DataSince(cfg, steps, s, i, now)
  {
    hide Stores, StoredSince;
    forall f: nat
      ensures StoredSince(cfg, steps, s, i, f) <==> now == Some(f)
    {
      StoredOneMore(cfg, before, steps, s, i, f);
      if g: nat :| Stores(cfg, steps, |before|, s, g) {
        StoredIsStep(cfg, steps, |before|, s, g);
        if Stores(cfg, steps, |before|, s, f) {
          StoredIsStep(cfg, steps, |before|, s, f);
        }
      }
    }
  }

  lemma NoDataYet(cfg: BoardConfig, before: seq<Step>, steps: seq<Step>, s: Slot)
    requires Grows(before, steps)
    ensures DataSince(cfg, steps, s, |before|, None)
  {
    hide AnswerAt;
  }

  /** The last step makes itself the chosen submission. */
  lemma LastIsChosen(cfg: BoardConfig, before: seq<Step>, steps: seq<Step>, s: Slot, k: Option<int>)
    requires Grows(before, steps) && Submits(steps, |before|, s)
    requires match k
             case None => forall j :: !Submits(before, j, s)
             case Some(i) => Chosen(cfg, before, s, i)
    requires k.Some? && cfg.updateMode == 0 ==>
               !Better(before[k.value].entry.score, steps[|before|].entry.score, cfg.sortMode)
    ensures Chosen(cfg, steps, s, |before|)
  {
    forall j | Submits(steps, j, s) && j != |before|
      ensures Submits(before, j, s) && before[j] == steps[j]
    {
      SubmitsBefore(before, steps, j, s);
    }
  }

  /** Or it leaves the choice as it was. */
  lemma StaysChosen(cfg: BoardConfig, before: seq<Step>, steps: seq<Step>, s: Slot, i: int)
    requires Grows(before, steps) && Chosen(cfg, before, s, i)
    requires Submits(steps, |before|, s) ==>
               cfg.updateMode == 0 && Better(before[i].entry.score, steps[|before|].entry.score, cfg.sortMode)
    ensures Chosen(cfg, steps, s, i)
  {
    SubmitsBefore(before, steps, i, s);
    forall j | Submits(steps, j, s) && j != |before|
      ensures Submits(before, j, s) && before[j] == steps[j]
    {
      SubmitsBefore(before, steps, j, s);
    }
  }

  /** Nothing was submitted for the slot, or the row is made of the chosen submission. */
  ghost predicate RowIs(cfg: BoardConfig, steps: seq<Step>, s: Slot, i: Option<int>) {
    var table := After(cfg, steps).table;
    match i
    case None => s !in table && forall j :: !Submits(steps, j, s)
    case Some(k) =>
      && Submits(steps, k, s) && Chosen(cfg, steps, s, k) && s in table
      && table[s] == steps[k].entry.(dataId := table[s].dataId) && DataSince(cfg, steps, s, k, table[s].dataId)
  }

  lemma {:induction false} TheChosen(cfg: BoardConfig, steps: seq<Step>, s: Slot) returns (i: Option<int>)
    ensures RowIs(cfg, steps, s, i)
    decreases |steps|
  {
    hide Apply, Chosen, DataSince;
    if steps == [] {
      i := None;
    } else {
      var before := steps[..|steps| - 1];
      var k := TheChosen(cfg, before, s);
      RunAgrees(cfg, before);
      i := OneMore(cfg, before, steps, s, k);
    }
  }

  lemma OneMore(cfg: BoardConfig, before: seq<Step>, steps: seq<Step>, s: Slot, k: Option<int>)
    returns (i: Option<int>)
    requires Grows(before, steps) && Agrees(cfg, After(cfg, before)) && RowIs(cfg, before, s, k)
    ensures RowIs(cfg, steps, s, i)
  {
    hide Apply, Chosen, DataSince, Stores, Better;
    var n, last := |before|, steps[|before|];
    assert After(cfg, steps) == Apply(cfg, After(cfg, before), last).0;
    RowAfter(cfg, After(cfg, before), last, s);
    i := k;
    if Submits(steps, n, s) && Apply(cfg, After(cfg, before), last).1 != NotBest {
      LastIsChosen(cfg, before, steps, s, k);
      NoDataYet(cfg, before, steps, s);
      i := Some(n);
    } else if k.Some? {
      SubmitsBefore(before, steps, k.value, s);
      StaysChosen(cfg, before, steps, s, k.value);
      StepStores(cfg, before, steps, s);
      var was, now := After(cfg, before).table[s].dataId, After(cfg, steps).table[s].dataId;
      DataOneMore(cfg, before, steps, s, k.value, was, now);
    } else {
      forall j
        ensures !Submits(steps, j, s)
      {
        SubmitsBefore(before, steps, j, s);
      }
    }
  }

  lemma StepStores(cfg: BoardConfig, before: seq<Step>, steps: seq<Step>, s: Slot)
    requires Grows(before, steps)
    ensures forall f: nat :: Stores(cfg, steps, |before|, s, f) <==>
              && steps[|before|].RecordData? && (steps[|before|].userId, steps[|before|].characterId) == s
              && steps[|before|].fileId == f && Apply(cfg, After(cfg, before), steps[|before|]).1 == DataStored
  {
    hide Apply;
  }

  /** Over every run: a slot has a row exactly when something was submitted for it. The row is the chosen
      submission, all of it, with the file stored for it since. */
  lemma TableIsSubmissions(cfg: BoardConfig, steps: seq<Step>, s: Slot)
    ensures var table := After(cfg, steps).table;
      && (s in table <==> exists i :: Submits(steps, i, s))
      && (s in table <==> exists i :: Chosen(cfg, steps, s, i))
      && forall i :: Chosen(cfg, steps, s, i) ==>
           && Submits(steps, i, s) && table[s] == steps[i].entry.(dataId := table[s].dataId)
           && DataSince(cfg, steps, s, i, table[s].dataId)
  {
    hide DataSince, After;
    var k := TheChosen(cfg, steps, s);
    forall i | Chosen(cfg, steps, s, i)
      ensures k == Some(i)
    {
      ChosenIsOne(cfg, steps, s, i, k.value);
    }
  }

  /** After every run: a submission is refused as not the best exactly in normal mode when an earlier one for
      the slot is strictly better; any other is given a rank. */
  lemma ScoreAnswers(cfg: BoardConfig, steps: seq<Step>, e: ScoreEntry)
    ensures var answer := Apply(cfg, After(cfg, steps), RecordScore(e)).1;
      && (answer == NotBest <==>
            && cfg.updateMode == 0
            && exists j :: Submits(steps, j, SlotOf(e)) && Better(steps[j].entry.score, e.score, cfg.sortMode))
      && (answer != NotBest ==> answer.Ranked?)
  {
    hide After, Apply, DataSince;
    RunAgrees(cfg, steps);
    RowAfter(cfg, After(cfg, steps), RecordScore(e), SlotOf(e));
    var k := TheChosen(cfg, steps, SlotOf(e));
    if k.Some? && Better(steps[k.value].entry.score, e.score, cfg.sortMode) {
      assert Submits(steps, k.value, SlotOf(e));
    }
  }

  /** After every run, what a data upload is told: not found exactly when the slot is not cached; else invalid
      for another score than the chosen submission's; else refused exactly when a file was stored since. */
  lemma DataAnswers(cfg: BoardConfig, steps: seq<Step>, userId: int, characterId: int, score: int, fileId: nat)
    ensures var b, s := After(cfg, steps), (userId, characterId);
      var answer := Apply(cfg, b, RecordData(userId, characterId, score, fileId)).1;
      if s !in Slots(b.rows) then answer == NotFound
      else
        && (exists i :: Chosen(cfg, steps, s, i))
        && forall i :: Chosen(cfg, steps, s, i) ==>
             if steps[i].entry.score != score then answer == Invalid
             else if exists f: nat :: StoredSince(cfg, steps, s, i, f) then answer == HasData
             else answer == if fileId == 0 then DbFail else DataStored
  {
    hide After, StoredSince;
    RunAgrees(cfg, steps);
    var b, s := After(cfg, steps), (userId, characterId);
    var at := SlotIndex(b.rows, s);
    TableIsSubmissions(cfg, steps, s);
    if s in Slots(b.rows) {
      assert at < |b.rows| && b.table[s] == b.rows[at];
      forall i | Chosen(cfg, steps, s, i)
        ensures (exists f: nat :: StoredSince(cfg, steps, s, i, f)) <==> b.table[s].dataId.Some?
      {
        if b.table[s].dataId.Some? {
          assert StoredSince(cfg, steps, s, i, b.table[s].dataId.value);
        }
      }
    }
  }
}
