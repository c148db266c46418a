/** The leaderboard: the score table kept in SQL and the bounded, sorted copy of its best rows
    that answers rank queries. Rows are modelled without the account name that the query joins in. */
module ScoreBoard {
  import opened Common

  /** Rank limits are 32-bit unsigned in the source; the cast to a signed position keeps its
      meaning only below 2^31. */
  type RankLimit = n: nat | n < 0x8000_0000

  datatype BoardConfig = BoardConfig(rankLimit: RankLimit, updateMode: nat, sortMode: nat)

  datatype ScoreEntry = ScoreEntry(
    userId: int, characterId: int, score: int,
    comment: string, gameInfo: Bytes, dataId: Option<nat>, timestamp: nat)

  /** The key of a row on one board. */
  type Slot = (int, int)

  type Table = map<Slot, ScoreEntry>

  function SlotOf(e: ScoreEntry): Slot {
    (e.userId, e.characterId)
  }

  /** Best first: better score, then the earlier submission, then the smaller user id. */
  predicate RanksBefore(a: ScoreEntry, b: ScoreEntry, sortMode: nat) {
    if a.score != b.score then
      if sortMode == 0 then a.score > b.score else a.score < b.score
    else if a.timestamp != b.timestamp then a.timestamp < b.timestamp
    else a.userId < b.userId
  }

  // ---------------------------------------------------------------------------------------------
  // What ORDER BY ... LIMIT promises

  /** The ORDER BY columns, each turned so that smaller comes first. */
  function OrderColumns(e: ScoreEntry, sortMode: nat): seq<int> {
    [if sortMode == 0 then -e.score else e.score, e.timestamp, e.userId]
  }

  predicate LexLess(a: seq<int>, b: seq<int>)
    requires |a| == |b|
  {
    a != [] && (a[0] < b[0] || (a[0] == b[0] && LexLess(a[1..], b[1..])))
  }

  /** The comparison in the cache orders rows as the ORDER BY columns do. */
  lemma RanksBeforeIsOrderBy(a: ScoreEntry, b: ScoreEntry, sortMode: nat)
    ensures RanksBefore(a, b, sortMode) <==> LexLess(OrderColumns(a, sortMode), OrderColumns(b, sortMode))
  {
    var ca, cb := OrderColumns(a, sortMode), OrderColumns(b, sortMode);
    assert ca[1..][1..] == [a.userId] && cb[1..][1..] == [b.userId];
    assert [a.userId][1..] == [] && [b.userId][1..] == [];
    assert LexLess([a.userId], [b.userId]) <==> a.userId < b.userId;
    assert LexLess(ca[1..], cb[1..]) <==>
      a.timestamp < b.timestamp || (a.timestamp == b.timestamp && a.userId < b.userId);
  }

  /** Every row is stored under its own key. */
  ghost predicate TableOk(table: Table) {
    forall s :: s in table ==> SlotOf(table[s]) == s
  }

  ghost predicate DistinctSlots(rows: seq<ScoreEntry>) {
    forall i, j :: 0 <= i < j < |rows| ==> SlotOf(rows[i]) != SlotOf(rows[j])
  }

  ghost predicate Sorted(rows: seq<ScoreEntry>, sortMode: nat) {
    forall i, j :: 0 <= i < j < |rows| ==> !RanksBefore(rows[j], rows[i], sortMode)
  }

  function Slots(rows: seq<ScoreEntry>): set<Slot> {
    set i | 0 <= i < |rows| :: SlotOf(rows[i])
  }

  /** `rows` is an answer the query may give: rows of the table, each once, best first, as many as
      the limit allows, and no row left out ranks before one that was kept. Rows that tie in every
      ORDER BY column may come in any order, as SQL leaves them. */
  ghost predicate IsTopRows(table: Table, cfg: BoardConfig, rows: seq<ScoreEntry>) {
    && DistinctSlots(rows)
    && Sorted(rows, cfg.sortMode)
    && (forall i :: 0 <= i < |rows| ==> SlotOf(rows[i]) in table && table[SlotOf(rows[i])] == rows[i])
    && |rows| == Min(|table|, cfg.rankLimit)
    && (forall s, i :: s in table && s !in Slots(rows) && 0 <= i < |rows| ==>
          !RanksBefore(table[s], rows[i], cfg.sortMode))
  }

  /** No two rows tie in every ORDER BY column. */
  ghost predicate NoTies(table: Table, sortMode: nat) {
    forall s, t :: s in table && t in table && s != t ==>
      RanksBefore(table[s], table[t], sortMode) || RanksBefore(table[t], table[s], sortMode)
  }

  lemma SlotsCount(rows: seq<ScoreEntry>)
    requires DistinctSlots(rows)
    ensures |Slots(rows)| == |rows|
  {
    if rows != [] {
      var rest := rows[..|rows| - 1];
      SlotsCount(rest);
      assert Slots(rows) == Slots(rest) + {SlotOf(rows[|rows| - 1])};
    }
  }

  lemma SlotsInTable(table: Table, cfg: BoardConfig, rows: seq<ScoreEntry>)
    requires IsTopRows(table, cfg, rows)
    ensures Slots(rows) <= table.Keys && |Slots(rows)| == |rows|
    ensures |rows| < cfg.rankLimit ==> Slots(rows) == table.Keys
  {
    SlotsCount(rows);
    if |rows| < cfg.rankLimit {
      assert |table.Keys| == |table|;
      SubsetSameSize(Slots(rows), table.Keys);
    }
  }

  /** With no ties the answer is unique, so the cached list is determined by the table alone. */
  lemma {:induction false} TopRowsUnique(table: Table, cfg: BoardConfig, a: seq<ScoreEntry>, b: seq<ScoreEntry>)
    requires TableOk(table) && NoTies(table, cfg.sortMode)
    requires IsTopRows(table, cfg, a) && IsTopRows(table, cfg, b)
    ensures a == b
  {
    forall k | 0 <= k < |a|
      ensures a[k] == b[k]
    {
      SamePlace(table, cfg, a, b, k);
    }
  }

  lemma {:induction false} SamePlace(table: Table, cfg: BoardConfig, a: seq<ScoreEntry>, b: seq<ScoreEntry>, k: nat)
    requires TableOk(table) && NoTies(table, cfg.sortMode)
    requires IsTopRows(table, cfg, a) && IsTopRows(table, cfg, b)
    requires k < |a|
    ensures a[k] == b[k]
    decreases k
  {
    forall j | 0 <= j < k
      ensures a[j] == b[j]
    {
      SamePlace(table, cfg, a, b, j);
    }
    if a[k] != b[k] {
      NotBeaten(table, cfg, a, b, k);
      NotBeaten(table, cfg, b, a, k);
    }
  }

  lemma NotBeforeSelf(a: ScoreEntry, sortMode: nat)
    ensures !RanksBefore(a, a, sortMode)
  {
  }

  /** When two answers agree below k, b's k-th row cannot rank before a's. */
  lemma NotBeaten(table: Table, cfg: BoardConfig, a: seq<ScoreEntry>, b: seq<ScoreEntry>, k: nat)
    requires TableOk(table)
    requires IsTopRows(table, cfg, a) && IsTopRows(table, cfg, b)
    requires k < |a| && a[..k] == b[..k]
    ensures !RanksBefore(b[k], a[k], cfg.sortMode)
  {
    NotBeforeSelf(a[k], cfg.sortMode);
    hide RanksBefore;
    assert forall i :: 0 <= i < k ==> a[..k][i] == b[i];
    var s := SlotOf(b[k]);
    if s in Slots(a) {
      var i :| 0 <= i < |a| && SlotOf(a[i]) == s;
      assert a[i] == b[k];
    }
  }

  lemma FrontSlots(rows: seq<ScoreEntry>, n: nat, k: nat)
    requires n <= |rows| && k < |rows|
    ensures k < n ==> SlotOf(rows[k]) in Slots(rows[..n])
  {
    if k < n {
      assert rows[..n][k] == rows[k];
    }
  }

  /** LIMIT after ORDER BY: the answer under a smaller limit is the front of the answer under a larger one. */
  lemma SmallerLimitIsPrefix(table: Table, cfg: BoardConfig, all: seq<ScoreEntry>, limit: RankLimit)
    requires IsTopRows(table, cfg, all) && limit <= cfg.rankLimit
    ensures IsTopRows(table, cfg.(rankLimit := limit), all[..Min(|all|, limit)])
  {
    var cut := all[..Min(|all|, limit)];
    forall s, i | s in table && s !in Slots(cut) && 0 <= i < |cut|
      ensures !RanksBefore(table[s], cut[i], cfg.sortMode)
    {
      if s in Slots(all) {
        var k :| 0 <= k < |all| && SlotOf(all[k]) == s;
        FrontSlots(all, |cut|, k);
        assert !RanksBefore(all[k], all[i], cfg.sortMode);
      }
    }
  }

  // ---------------------------------------------------------------------------------------------
  // What the cache does to its list of rows

  /** Where the slot sits in the list; the length of the list when it is absent. */
  function SlotIndex(rows: seq<ScoreEntry>, s: Slot): (r: nat)
    ensures r <= |rows|
    ensures r < |rows| ==> SlotOf(rows[r]) == s
    ensures forall j :: 0 <= j < r ==> SlotOf(rows[j]) != s
  {
    if rows == [] || SlotOf(rows[0]) == s then 0 else 1 + SlotIndex(rows[1..], s)
  }

  function Without(rows: seq<ScoreEntry>, s: Slot): seq<ScoreEntry> {
    var i := SlotIndex(rows, s);
    if i < |rows| then rows[..i] + rows[i + 1..] else rows
  }

  /** The first place whose row does not rank before e. */
  function InsertPos(rows: seq<ScoreEntry>, e: ScoreEntry, sortMode: nat): (r: nat)
    ensures r <= |rows|
    ensures r < |rows| ==> !RanksBefore(rows[r], e, sortMode)
    ensures forall j :: 0 <= j < r ==> RanksBefore(rows[j], e, sortMode)
  {
    if rows == [] || !RanksBefore(rows[0], e, sortMode) then 0
    else 1 + InsertPos(rows[1..], e, sortMode)
  }

  /** Whether a row at place p makes the board. */
  predicate Fits(base: seq<ScoreEntry>, p: nat, cfg: BoardConfig) {
    |base| < cfg.rankLimit || p < cfg.rankLimit
  }

  /** A row whose slot is absent is placed; the last row goes when the list outgrows the limit. */
  function InsertAbsentRows(base: seq<ScoreEntry>, e: ScoreEntry, cfg: BoardConfig): seq<ScoreEntry> {
    var p := InsertPos(base, e, cfg.sortMode);
    if Fits(base, p, cfg) then
      var grown := base[..p] + [e] + base[p..];
      if |grown| > cfg.rankLimit then grown[..|grown| - 1] else grown
    else base
  }

  function InsertAbsentRank(base: seq<ScoreEntry>, e: ScoreEntry, cfg: BoardConfig): nat {
    var p := InsertPos(base, e, cfg.sortMode);
    if Fits(base, p, cfg) then p + 1 else cfg.rankLimit + 1
  }

  /** The rows after an insertion, which first drops the slot's old row. */
  function InsertRows(rows: seq<ScoreEntry>, e: ScoreEntry, cfg: BoardConfig): seq<ScoreEntry> {
    InsertAbsentRows(Without(rows, SlotOf(e)), e, cfg)
  }

  /** The rank reported for the insertion. */
  function InsertRank(rows: seq<ScoreEntry>, e: ScoreEntry, cfg: BoardConfig): nat {
    InsertAbsentRank(Without(rows, SlotOf(e)), e, cfg)
  }

  // ---------------------------------------------------------------------------------------------
  // One insertion against one upsert

  /** The insertion moves a cached row to a place that some uncached row of the table deserves. */
  ghost predicate Displaced(table: Table, rows: seq<ScoreEntry>, cfg: BoardConfig, e: ScoreEntry) {
    && SlotOf(e) in Slots(rows)
    && exists s :: s in table && s !in Slots(rows) && RanksBefore(table[s], e, cfg.sortMode)
  }

  lemma WithoutAbsent(rows: seq<ScoreEntry>, s: Slot)
    requires s !in Slots(rows)
    ensures Without(rows, s) == rows
  {
    assert forall k :: 0 <= k < |rows| ==> SlotOf(rows[k]) in Slots(rows);
  }

  lemma WithoutFacts(rows: seq<ScoreEntry>, s: Slot, sortMode: nat)
    requires DistinctSlots(rows) && Sorted(rows, sortMode)
    ensures var base := Without(rows, s);
      && DistinctSlots(base) && Sorted(base, sortMode)
      && Slots(base) == Slots(rows) - {s}
      && (forall i :: 0 <= i < |base| ==> base[i] in rows)
      && |base| == |rows| - (if s in Slots(rows) then 1 else 0)
  {
    var base, i := Without(rows, s), SlotIndex(rows, s);
    if i < |rows| {
      assert s in Slots(rows);
      forall j | 0 <= j < |base|
        ensures base[j] == rows[if j < i then j else j + 1]
      {
      }
      forall t | t in Slots(rows) && t != s
        ensures t in Slots(base)
      {
        var j :| 0 <= j < |rows| && SlotOf(rows[j]) == t;
        assert base[if j < i then j else j - 1] == rows[j];
      }
    }
  }

  function Grown(base: seq<ScoreEntry>, e: ScoreEntry, sortMode: nat): seq<ScoreEntry> {
    var p := InsertPos(base, e, sortMode);
    base[..p] + [e] + base[p..]
  }

  /** Where the row at place j of the grown list came from. */
  lemma GrownAt(base: seq<ScoreEntry>, e: ScoreEntry, sortMode: nat, j: nat)
    requires j <= |base|
    ensures var p := InsertPos(base, e, sortMode);
      |Grown(base, e, sortMode)| == |base| + 1 &&
      Grown(base, e, sortMode)[j] == if j < p then base[j] else if j == p then e else base[j - 1]
  {
  }

  lemma GrownSorted(base: seq<ScoreEntry>, e: ScoreEntry, sortMode: nat)
    requires Sorted(base, sortMode)
    ensures Sorted(Grown(base, e, sortMode), sortMode)
  {
    var grown, p := Grown(base, e, sortMode), InsertPos(base, e, sortMode);
    forall i, j | 0 <= i < j < |grown|
      ensures !RanksBefore(grown[j], grown[i], sortMode)
    {
      GrownAt(base, e, sortMode, i);
      GrownAt(base, e, sortMode, j);
      if i == p {
        assert !RanksBefore(base[p], e, sortMode);
        assert !RanksBefore(base[j - 1], base[p], sortMode) || j - 1 == p;
      }
    }
  }

  lemma GrownSlots(base: seq<ScoreEntry>, e: ScoreEntry, sortMode: nat)
    requires DistinctSlots(base) && SlotOf(e) !in Slots(base)
    ensures DistinctSlots(Grown(base, e, sortMode))
    ensures Slots(Grown(base, e, sortMode)) == Slots(base) + {SlotOf(e)}
  {
    var grown, p := Grown(base, e, sortMode), InsertPos(base, e, sortMode);
    forall j | 0 <= j < |grown|
      ensures SlotOf(grown[j]) in Slots(base) + {SlotOf(e)}
    {
      GrownAt(base, e, sortMode, j);
    }
    forall i, j | 0 <= i < j < |grown|
      ensures SlotOf(grown[i]) != SlotOf(grown[j])
    {
      GrownAt(base, e, sortMode, i);
      GrownAt(base, e, sortMode, j);
      assert i != p ==> SlotOf(grown[i]) in Slots(base);
      assert j != p ==> SlotOf(grown[j]) in Slots(base);
    }
    forall t | t in Slots(base)
      ensures t in Slots(grown)
    {
      var j :| 0 <= j < |base| && SlotOf(base[j]) == t;
      assert grown[if j < p then j else j + 1] == base[j];
    }
    assert grown[p] == e;
  }

  /** Trimming the last row of a sorted list with distinct slots. */
  lemma TrimFacts(grown: seq<ScoreEntry>, sortMode: nat)
    requires grown != [] && DistinctSlots(grown) && Sorted(grown, sortMode)
    ensures var cut, last := grown[..|grown| - 1], grown[|grown| - 1];
      && DistinctSlots(cut) && Sorted(cut, sortMode)
      && Slots(cut) == Slots(grown) - {SlotOf(last)}
      && (forall i :: 0 <= i < |cut| ==> !RanksBefore(last, cut[i], sortMode))
  {
    var cut := grown[..|grown| - 1];
    forall t | t in Slots(grown) && t != SlotOf(grown[|grown| - 1])
      ensures t in Slots(cut)
    {
      var j :| 0 <= j < |grown| && SlotOf(grown[j]) == t;
      assert cut[j] == grown[j];
    }
  }

  /** A rank within the limit is the place, counted from one, where the new row now sits. */
  lemma NewRowPlaced(rows: seq<ScoreEntry>, e: ScoreEntry, cfg: BoardConfig)
    requires |rows| <= cfg.rankLimit
    ensures var now, rank := InsertRows(rows, e, cfg), InsertRank(rows, e, cfg);
      && (rank <= cfg.rankLimit ==> 1 <= rank <= |now| && now[rank - 1] == e && SlotOf(e) in Slots(now))
      && (rank > cfg.rankLimit ==> rank == cfg.rankLimit + 1 && now == Without(rows, SlotOf(e)))
  {
    var now, rank := InsertRows(rows, e, cfg), InsertRank(rows, e, cfg);
    if rank <= cfg.rankLimit {
      assert now[rank - 1] == e;
    }
  }

  lemma AbsentRowsFrom(base: seq<ScoreEntry>, e: ScoreEntry, cfg: BoardConfig, i: nat)
    requires i < |InsertAbsentRows(base, e, cfg)|
    ensures InsertAbsentRows(base, e, cfg)[i] == e || InsertAbsentRows(base, e, cfg)[i] in base
  {
    if i <= |base| {
      GrownAt(base, e, cfg.sortMode, i);
    }
  }

  /** Every row of the new list is the new row or an old one. */
  lemma InsertRowsFrom(rows: seq<ScoreEntry>, e: ScoreEntry, cfg: BoardConfig, i: nat)
    requires DistinctSlots(rows) && Sorted(rows, cfg.sortMode)
    requires i < |InsertRows(rows, e, cfg)|
    ensures var r := InsertRows(rows, e, cfg)[i];
      r == e || (r in rows && r in Without(rows, SlotOf(e)) && SlotOf(r) != SlotOf(e))
  {
    var base := Without(rows, SlotOf(e));
    AbsentRowsFrom(base, e, cfg, i);
    WithoutFacts(rows, SlotOf(e), cfg.sortMode);
    if r :| r in base && r == InsertRows(rows, e, cfg)[i] {
      var k :| 0 <= k < |base| && base[k] == r;
      assert SlotOf(base[k]) in Slots(base);
    }
  }

  /** The cached list after the insertion is again a legitimate answer of the query over the
      updated table, exactly when the insertion does not displace a cached row below an uncached
      one. */
  lemma {:induction false} UpsertKeepsTop(table: Table, rows: seq<ScoreEntry>, cfg: BoardConfig, e: ScoreEntry)
    requires TableOk(table) && IsTopRows(table, cfg, rows)
    ensures IsTopRows(table[SlotOf(e) := e], cfg, InsertRows(rows, e, cfg)) <==> !Displaced(table, rows, cfg, e)
  {
    if Displaced(table, rows, cfg, e) {
      DisplacedBreaksTop(table, rows, cfg, e);
    } else {
      UndisplacedKeepsTop(table, rows, cfg, e);
    }
  }

  lemma DisplacedBreaksTop(table: Table, rows: seq<ScoreEntry>, cfg: BoardConfig, e: ScoreEntry)
    requires TableOk(table) && IsTopRows(table, cfg, rows) && Displaced(table, rows, cfg, e)
    ensures !IsTopRows(table[SlotOf(e) := e], cfg, InsertRows(rows, e, cfg))
  {
    var now, table' := InsertRows(rows, e, cfg), table[SlotOf(e) := e];
    var base, p := Without(rows, SlotOf(e)), InsertPos(Without(rows, SlotOf(e)), e, cfg.sortMode);
    WithoutFacts(rows, SlotOf(e), cfg.sortMode);
    assert now[p] == e;
    var s :| s in table && s !in Slots(rows) && RanksBefore(table[s], e, cfg.sortMode);
    if s in Slots(now) {
      var i :| 0 <= i < |now| && SlotOf(now[i]) == s;
      InsertRowsFrom(rows, e, cfg, i);
    }
    assert table'[s] == table[s];
  }

  /** Shape of the new list, whatever the table: sorted, distinct, and holding the old slots with
      the new one, less the one that fell off the end or did not fit. */
  lemma InsertShape(rows: seq<ScoreEntry>, e: ScoreEntry, cfg: BoardConfig)
    requires DistinctSlots(rows) && Sorted(rows, cfg.sortMode) && |rows| <= cfg.rankLimit
    ensures var now := InsertRows(rows, e, cfg);
      && DistinctSlots(now) && Sorted(now, cfg.sortMode)
      && |now| == Min(cfg.rankLimit, |rows| + if SlotOf(e) in Slots(rows) then 0 else 1)
  {
    var base := Without(rows, SlotOf(e));
    WithoutFacts(rows, SlotOf(e), cfg.sortMode);
    GrownSorted(base, e, cfg.sortMode);
    GrownSlots(base, e, cfg.sortMode);
    TrimFacts(Grown(base, e, cfg.sortMode), cfg.sortMode);
  }

  lemma UndisplacedKeepsTop(table: Table, rows: seq<ScoreEntry>, cfg: BoardConfig, e: ScoreEntry)
    requires TableOk(table) && IsTopRows(table, cfg, rows) && !Displaced(table, rows, cfg, e)
    ensures IsTopRows(table[SlotOf(e) := e], cfg, InsertRows(rows, e, cfg))
  {
    var table', now := table[SlotOf(e) := e], InsertRows(rows, e, cfg);
    InsertShape(rows, e, cfg);
    InsertedSize(table, rows, cfg, e);
    InsertedRowsInTable(table, rows, cfg, e);
    forall s, i | s in table' && s !in Slots(now) && 0 <= i < |now|
      ensures !RanksBefore(table'[s], now[i], cfg.sortMode)
    {
      LeftOutRanksNoBetter(table, rows, cfg, e, s, i);
    }
  }

  lemma InsertedSize(table: Table, rows: seq<ScoreEntry>, cfg: BoardConfig, e: ScoreEntry)
    requires TableOk(table) && IsTopRows(table, cfg, rows)
    ensures |InsertRows(rows, e, cfg)| == Min(|table[SlotOf(e) := e]|, cfg.rankLimit)
  {
    SlotsInTable(table, cfg, rows);
    InsertShape(rows, e, cfg);
    UpsertSize(table, e);
  }

  lemma InsertedRowsInTable(table: Table, rows: seq<ScoreEntry>, cfg: BoardConfig, e: ScoreEntry)
    requires TableOk(table) && IsTopRows(table, cfg, rows)
    ensures var table', now := table[SlotOf(e) := e], InsertRows(rows, e, cfg);
      forall i :: 0 <= i < |now| ==> SlotOf(now[i]) in table' && table'[SlotOf(now[i])] == now[i]
  {
    var table', now := table[SlotOf(e) := e], InsertRows(rows, e, cfg);
    forall i | 0 <= i < |now|
      ensures SlotOf(now[i]) in table' && table'[SlotOf(now[i])] == now[i]
    {
      InsertRowsFrom(rows, e, cfg, i);
    }
  }

  lemma UpsertSize(table: Table, e: ScoreEntry)
    ensures |table[SlotOf(e) := e]| == |table| + (if SlotOf(e) in table then 0 else 1)
  {
    var table' := table[SlotOf(e) := e];
    assert table'.Keys == table.Keys + {SlotOf(e)};
    assert |table'.Keys| == |table'| && |table.Keys| == |table|;
  }

  lemma LeftOutRanksNoBetter(
    table: Table, rows: seq<ScoreEntry>, cfg: BoardConfig, e: ScoreEntry, s: Slot, i: nat)
    requires TableOk(table) && IsTopRows(table, cfg, rows) && !Displaced(table, rows, cfg, e)
    requires s in table[SlotOf(e) := e] && s !in Slots(InsertRows(rows, e, cfg))
    requires i < |InsertRows(rows, e, cfg)|
    ensures !RanksBefore(table[SlotOf(e) := e][s], InsertRows(rows, e, cfg)[i], cfg.sortMode)
  {
    var now := InsertRows(rows, e, cfg);
    InsertRowsFrom(rows, e, cfg, i);
    if s == SlotOf(e) {
      NotFitting(rows, e, cfg, i);
    } else if s in Slots(rows) {
      TrimmedRow(table, rows, cfg, e, s, i);
    } else if now[i] == e {
      UncachedNotBeforeNew(table, rows, cfg, e, s);
    } else {
      var k :| 0 <= k < |rows| && rows[k] == now[i];
    }
  }

  /** A new row that is missing from the new list ranks before none of it. */
  lemma NotFitting(rows: seq<ScoreEntry>, e: ScoreEntry, cfg: BoardConfig, i: nat)
    requires DistinctSlots(rows) && Sorted(rows, cfg.sortMode) && |rows| <= cfg.rankLimit
    requires SlotOf(e) !in Slots(InsertRows(rows, e, cfg))
    requires i < |InsertRows(rows, e, cfg)|
    ensures !RanksBefore(e, InsertRows(rows, e, cfg)[i], cfg.sortMode)
  {
    NewRowPlaced(rows, e, cfg);
  }

  /** An old row that left the list was its last one. */
  lemma TrimmedRow(table: Table, rows: seq<ScoreEntry>, cfg: BoardConfig, e: ScoreEntry, s: Slot, i: nat)
    requires TableOk(table) && IsTopRows(table, cfg, rows)
    requires s in Slots(rows) && s != SlotOf(e) && s !in Slots(InsertRows(rows, e, cfg))
    requires i < |InsertRows(rows, e, cfg)|
    ensures s in table && !RanksBefore(table[s], InsertRows(rows, e, cfg)[i], cfg.sortMode)
  {
    var grown := Grown(Without(rows, SlotOf(e)), e, cfg.sortMode);
    DroppedIsLast(rows, e, cfg, s);
    LastOfGrown(rows, e, cfg.sortMode, s);
    assert grown[i] == InsertRows(rows, e, cfg)[i];
    var k :| 0 <= k < |rows| && rows[k] == grown[|grown| - 1];
  }

  lemma DroppedIsLast(rows: seq<ScoreEntry>, e: ScoreEntry, cfg: BoardConfig, s: Slot)
    requires DistinctSlots(rows) && Sorted(rows, cfg.sortMode) && |rows| <= cfg.rankLimit
    requires s in Slots(rows) && s != SlotOf(e) && s !in Slots(InsertRows(rows, e, cfg))
    ensures var grown := Grown(Without(rows, SlotOf(e)), e, cfg.sortMode);
      && SlotOf(grown[|grown| - 1]) == s
      && InsertRows(rows, e, cfg) == grown[..|grown| - 1]
      && Sorted(grown, cfg.sortMode)
  {
    var base := Without(rows, SlotOf(e));
    WithoutFacts(rows, SlotOf(e), cfg.sortMode);
    GrownSorted(base, e, cfg.sortMode);
    GrownSlots(base, e, cfg.sortMode);
    TrimFacts(Grown(base, e, cfg.sortMode), cfg.sortMode);
  }

  lemma LastOfGrown(rows: seq<ScoreEntry>, e: ScoreEntry, sortMode: nat, s: Slot)
    requires DistinctSlots(rows) && Sorted(rows, sortMode)
    requires var grown := Grown(Without(rows, SlotOf(e)), e, sortMode);
      s == SlotOf(grown[|grown| - 1]) && s != SlotOf(e)
    ensures var grown := Grown(Without(rows, SlotOf(e)), e, sortMode);
      grown[|grown| - 1] in rows
  {
    var base := Without(rows, SlotOf(e));
    WithoutFacts(rows, SlotOf(e), sortMode);
    GrownAt(base, e, sortMode, |base|);
  }

  /** A row outside the cache never ranks before a new row that found a place. */
  lemma UncachedNotBeforeNew(table: Table, rows: seq<ScoreEntry>, cfg: BoardConfig, e: ScoreEntry, s: Slot)
    requires TableOk(table) && IsTopRows(table, cfg, rows) && !Displaced(table, rows, cfg, e)
    requires s in table && s !in Slots(rows) && s != SlotOf(e)
    requires InsertRank(rows, e, cfg) <= cfg.rankLimit
    ensures !RanksBefore(table[s], e, cfg.sortMode)
  {
    if SlotOf(e) !in Slots(rows) {
      var p := InsertPos(rows, e, cfg.sortMode);
      WithoutAbsent(rows, SlotOf(e));
      SlotsInTable(table, cfg, rows);
      assert p < |rows|;
      assert !RanksBefore(rows[p], e, cfg.sortMode);
      assert !RanksBefore(table[s], rows[p], cfg.sortMode);
    }
  }

  /** The reported rank is one more than the number of remaining cached rows that rank before the new one;
      only when those fill the board is it past the limit and the new row absent. A player already on the
      board stays on it. */
  lemma RankCountsBetterCached(rows: seq<ScoreEntry>, e: ScoreEntry, cfg: BoardConfig)
    requires DistinctSlots(rows) && Sorted(rows, cfg.sortMode) && |rows| <= cfg.rankLimit
    ensures var base := Without(rows, SlotOf(e));
      var better := set i: nat | i < |base| && RanksBefore(base[i], e, cfg.sortMode);
      && InsertRank(rows, e, cfg) == |better| + 1
      && (SlotOf(e) in Slots(InsertRows(rows, e, cfg)) <==> |better| < cfg.rankLimit)
      && (SlotOf(e) in Slots(rows) ==> SlotOf(e) in Slots(InsertRows(rows, e, cfg)))
  {
    var base := Without(rows, SlotOf(e));
    var p := InsertPos(base, e, cfg.sortMode);
    WithoutFacts(rows, SlotOf(e), cfg.sortMode);
    forall i: nat | i < |base|
      ensures RanksBefore(base[i], e, cfg.sortMode) <==> i < p
    {
      BeforePlace(base, e, cfg.sortMode, i);
    }
    assert (set i: nat | i < |base| && RanksBefore(base[i], e, cfg.sortMode)) == Below(p);
    NewRowPlaced(rows, e, cfg);
  }

  /** Slots whose rows rank before e. */
  ghost function Ahead(table: Table, e: ScoreEntry, sortMode: nat): set<Slot> {
    set s | s in table && RanksBefore(table[s], e, sortMode)
  }

  /** The reported rank is the rank in the whole table, cut at one past the limit, exactly when the
      insertion displaces nothing. */
  lemma {:induction false} ReportedRankIsTrue(table: Table, rows: seq<ScoreEntry>, cfg: BoardConfig, e: ScoreEntry)
    requires TableOk(table) && IsTopRows(table, cfg, rows)
    ensures InsertRank(rows, e, cfg) == Min(1 + |Ahead(table[SlotOf(e) := e], e, cfg.sortMode)|, cfg.rankLimit + 1)
       <==> !Displaced(table, rows, cfg, e)
  {
    CachedAhead(table, rows, cfg, e);
    if Displaced(table, rows, cfg, e) {
      DisplacedRankTooGood(table, rows, cfg, e);
    } else if InsertRank(rows, e, cfg) <= cfg.rankLimit {
      NothingElseAhead(table, rows, cfg, e);
    } else {
      SubsetSize(PlacedAhead(rows, e, cfg.sortMode), Ahead(table[SlotOf(e) := e], e, cfg.sortMode));
    }
  }

  lemma DisplacedRankTooGood(table: Table, rows: seq<ScoreEntry>, cfg: BoardConfig, e: ScoreEntry)
    requires TableOk(table) && IsTopRows(table, cfg, rows) && Displaced(table, rows, cfg, e)
    ensures InsertRank(rows, e, cfg) < Min(1 + |Ahead(table[SlotOf(e) := e], e, cfg.sortMode)|, cfg.rankLimit + 1)
  {
    var cached, ahead := PlacedAhead(rows, e, cfg.sortMode), Ahead(table[SlotOf(e) := e], e, cfg.sortMode);
    CachedAhead(table, rows, cfg, e);
    var s :| s in table && s !in Slots(rows) && RanksBefore(table[s], e, cfg.sortMode);
    SubsetSize(cached + {s}, ahead);
    CachedSlotLeaves(rows, SlotOf(e));
  }

  lemma CachedSlotLeaves(rows: seq<ScoreEntry>, s: Slot)
    requires s in Slots(rows)
    ensures |Without(rows, s)| == |rows| - 1
  {
    var k :| 0 <= k < |rows| && SlotOf(rows[k]) == s;
    assert SlotIndex(rows, s) <= k;
  }

  /** Slots of the rows that stand before the place of e. */
  function PlacedAhead(rows: seq<ScoreEntry>, e: ScoreEntry, sortMode: nat): set<Slot> {
    var base := Without(rows, SlotOf(e));
    Slots(base[..InsertPos(base, e, sortMode)])
  }

  /** The rows before the insertion place are cached rows that rank before e. */
  lemma CachedAhead(table: Table, rows: seq<ScoreEntry>, cfg: BoardConfig, e: ScoreEntry)
    requires TableOk(table) && IsTopRows(table, cfg, rows)
    ensures var base := Without(rows, SlotOf(e));
      var p := InsertPos(base, e, cfg.sortMode);
      && p <= |base| <= |rows|
      && |PlacedAhead(rows, e, cfg.sortMode)| == p
      && PlacedAhead(rows, e, cfg.sortMode) <= Ahead(table[SlotOf(e) := e], e, cfg.sortMode)
      && PlacedAhead(rows, e, cfg.sortMode) <= Slots(rows)
  {
    var base := Without(rows, SlotOf(e));
    var p := InsertPos(base, e, cfg.sortMode);
    hide RanksBefore, InsertPos, Without, IsTopRows, Ahead, TableOk;
    assert DistinctSlots(rows) && Sorted(rows, cfg.sortMode) by {
      TopRowsShape(table, cfg, rows);
    }
    WithoutFacts(rows, SlotOf(e), cfg.sortMode);
    SlotsCount(base[..p]);
    forall s | s in Slots(base[..p])
      ensures s in Ahead(table[SlotOf(e) := e], e, cfg.sortMode) && s in Slots(rows)
    {
      var i :| 0 <= i < p && SlotOf(base[..p][i]) == s;
      assert base[..p][i] == base[i];
      OneAhead(table, rows, cfg, e, i);
    }
  }

  lemma TopRowsShape(table: Table, cfg: BoardConfig, rows: seq<ScoreEntry>)
    requires IsTopRows(table, cfg, rows)
    ensures DistinctSlots(rows) && Sorted(rows, cfg.sortMode)
  {
  }

  lemma OneAhead(table: Table, rows: seq<ScoreEntry>, cfg: BoardConfig, e: ScoreEntry, i: nat)
    requires TableOk(table) && IsTopRows(table, cfg, rows)
    requires i < InsertPos(Without(rows, SlotOf(e)), e, cfg.sortMode)
    ensures SlotOf(Without(rows, SlotOf(e))[i]) in Ahead(table[SlotOf(e) := e], e, cfg.sortMode)
    ensures SlotOf(Without(rows, SlotOf(e))[i]) in Slots(rows)
  {
    hide RanksBefore;
    var base := Without(rows, SlotOf(e));
    WithoutFacts(rows, SlotOf(e), cfg.sortMode);
    assert base[i] in rows && SlotOf(base[i]) in Slots(base);
  }

  lemma NothingElseAhead(table: Table, rows: seq<ScoreEntry>, cfg: BoardConfig, e: ScoreEntry)
    requires TableOk(table) && IsTopRows(table, cfg, rows) && !Displaced(table, rows, cfg, e)
    requires InsertRank(rows, e, cfg) <= cfg.rankLimit
    ensures PlacedAhead(rows, e, cfg.sortMode) == Ahead(table[SlotOf(e) := e], e, cfg.sortMode)
  {
    var base := Without(rows, SlotOf(e));
    var p := InsertPos(base, e, cfg.sortMode);
    CachedAhead(table, rows, cfg, e);
    WithoutFacts(rows, SlotOf(e), cfg.sortMode);
    forall s | s in Ahead(table[SlotOf(e) := e], e, cfg.sortMode)
      ensures s in Slots(base[..p])
    {
      if s !in Slots(rows) {
        UncachedNotBeforeNew(table, rows, cfg, e, s);
      }
      assert s in Slots(base);
      var i :| 0 <= i < |base| && SlotOf(base[i]) == s;
      assert base[i] in rows;
      BeforePlace(base, e, cfg.sortMode, i);
      assert base[..p][i] == base[i];
    }
  }

  lemma BeforePlace(base: seq<ScoreEntry>, e: ScoreEntry, sortMode: nat, i: nat)
    requires Sorted(base, sortMode) && i < |base|
    ensures RanksBefore(base[i], e, sortMode) <==> i < InsertPos(base, e, sortMode)
  {
    var p := InsertPos(base, e, sortMode);
    if i < p {
      assert RanksBefore(base[i], e, sortMode);
    } else {
      assert !RanksBefore(base[p], e, sortMode);
      assert i == p || !RanksBefore(base[i], base[p], sortMode);
      NotBeforeChains(base[i], base[p], e, sortMode);
    }
  }

  /** Not ranking before is transitive. */
  lemma NotBeforeChains(a: ScoreEntry, b: ScoreEntry, c: ScoreEntry, sortMode: nat)
    requires !RanksBefore(a, b, sortMode) && !RanksBefore(b, c, sortMode)
    ensures !RanksBefore(a, c, sortMode)
  {
  }

  /** A replacement that ranks no worse than the row it replaces, a slot that was not cached, and a
      table that fits the limit are all safe. */
  lemma SafeReplacements(table: Table, rows: seq<ScoreEntry>, cfg: BoardConfig, e: ScoreEntry)
    requires TableOk(table) && IsTopRows(table, cfg, rows)
    requires || SlotOf(e) !in Slots(rows)
             || !RanksBefore(table[SlotOf(e)], e, cfg.sortMode)
             || |table| <= cfg.rankLimit
    ensures !Displaced(table, rows, cfg, e)
  {
    SlotsInTable(table, cfg, rows);
    if SlotOf(e) in Slots(rows) {
      if |table| <= cfg.rankLimit {
        SubsetSameSize(Slots(rows), table.Keys);
      } else {
        var k :| 0 <= k < |rows| && SlotOf(rows[k]) == SlotOf(e);
        assert table[SlotOf(e)] == rows[k];
      }
    }
  }

  // ---------------------------------------------------------------------------------------------
  // Table and cache step by step

  datatype Board = Board(table: Table, rows: seq<ScoreEntry>)

  datatype Step =
    | RecordScore(entry: ScoreEntry)
    | RecordData(userId: int, characterId: int, score: int, fileId: nat)

  datatype Outcome = Ranked(rank: nat) | DataStored | NotBest | NotFound | Invalid | HasData | DbFail

  /** A submission carries no score data yet. */
  function Submitted(e: ScoreEntry): ScoreEntry {
    e.(dataId := None)
  }

  /** The upsert's condition: a new row always; over an old row always in force mode, otherwise when
      the score is at least as good. */
  predicate Accepts(table: Table, cfg: BoardConfig, e: ScoreEntry) {
    SlotOf(e) in table && cfg.updateMode == 0 ==>
      if cfg.sortMode == 0 then e.score >= table[SlotOf(e)].score else e.score <= table[SlotOf(e)].score
  }

  /** In normal mode the table refuses a submission exactly when, were both made at the same moment,
      the old row would rank before it. */
  lemma NormalModeKeepsTheBest(table: Table, cfg: BoardConfig, e: ScoreEntry)
    requires TableOk(table) && cfg.updateMode == 0 && SlotOf(e) in table
    ensures var old' := table[SlotOf(e)];
      Accepts(table, cfg, e) <==> !RanksBefore(old', e.(timestamp := old'.timestamp), cfg.sortMode)
  {
    assert SlotOf(table[SlotOf(e)]) == SlotOf(e);
  }

  /** What the cache says before score data is stored. */
  function DataError(rows: seq<ScoreEntry>, slot: Slot, score: int): Option<Outcome> {
    var i := SlotIndex(rows, slot);
    if i == |rows| then Some(NotFound)
    else if rows[i].score != score then Some(Invalid)
    else if rows[i].dataId.Some? then Some(HasData)
    else None
  }

  function WithData(rows: seq<ScoreEntry>, slot: Slot, fileId: nat): seq<ScoreEntry> {
    var i := SlotIndex(rows, slot);
    if i < |rows| then rows[i := rows[i].(dataId := Some(fileId))] else rows
  }

  function TableWithData(table: Table, slot: Slot, score: int, fileId: nat): Table {
    if slot in table && table[slot].score == score
    then table[slot := table[slot].(dataId := Some(fileId))] else table
  }

  function Apply(cfg: BoardConfig, b: Board, step: Step): (Board, Outcome) {
    match step
    case RecordScore(entry) =>
      var e := Submitted(entry);
      if !Accepts(b.table, cfg, e) then (b, NotBest)
      else (Board(b.table[SlotOf(e) := e], InsertRows(b.rows, e, cfg)), Ranked(InsertRank(b.rows, e, cfg)))
    case RecordData(u, c, score, fileId) =>
      var error := DataError(b.rows, (u, c), score);
      if error.Some? then (b, error.value)
      else if fileId == 0 then (b, DbFail)
      else (Board(TableWithData(b.table, (u, c), score, fileId), WithData(b.rows, (u, c), fileId)), DataStored)
  }

  ghost predicate InStep(cfg: BoardConfig, b: Board) {
    TableOk(b.table) && IsTopRows(b.table, cfg, b.rows)
  }

  ghost predicate Safe(cfg: BoardConfig, b: Board, step: Step) {
    step.RecordScore? && Accepts(b.table, cfg, Submitted(step.entry)) ==>
      !Displaced(b.table, b.rows, cfg, Submitted(step.entry))
  }

  /** Storing score data changes the same row in the table and in the cache. */
  lemma DataKeepsTop(table: Table, rows: seq<ScoreEntry>, cfg: BoardConfig, slot: Slot, score: int, fileId: nat)
    requires TableOk(table) && IsTopRows(table, cfg, rows)
    requires DataError(rows, slot, score).None?
    ensures TableOk(TableWithData(table, slot, score, fileId))
    ensures IsTopRows(TableWithData(table, slot, score, fileId), cfg, WithData(rows, slot, fileId))
  {
    var table', rows' := TableWithData(table, slot, score, fileId), WithData(rows, slot, fileId);
    var k := SlotIndex(rows, slot);
    assert table[slot] == rows[k] && slot in table;
    assert table'.Keys == table.Keys;
    assert |table'| == |table'.Keys| && |table| == |table.Keys|;
    DataKeepsShape(rows, slot, fileId, cfg.sortMode);
    forall i | 0 <= i < |rows'|
      ensures SlotOf(rows'[i]) in table' && table'[SlotOf(rows'[i])] == rows'[i]
    {
      assert table[SlotOf(rows[i])] == rows[i];
      assert i != k ==> SlotOf(rows[i]) != SlotOf(rows[k]);
    }
    forall s, i | s in table' && s !in Slots(rows') && 0 <= i < |rows'|
      ensures !RanksBefore(table'[s], rows'[i], cfg.sortMode)
    {
      assert slot == SlotOf(rows[k]) && slot in Slots(rows);
      assert !RanksBefore(table[s], rows[i], cfg.sortMode);
    }
  }

  lemma DataKeepsShape(rows: seq<ScoreEntry>, slot: Slot, fileId: nat, sortMode: nat)
    requires DistinctSlots(rows) && Sorted(rows, sortMode)
    ensures var rows' := WithData(rows, slot, fileId);
      DistinctSlots(rows') && Sorted(rows', sortMode) && Slots(rows') == Slots(rows)
  {
    var rows' := WithData(rows, slot, fileId);
    assert forall i :: 0 <= i < |rows| ==>
      rows'[i] == rows[i] || rows'[i] == rows[i].(dataId := Some(fileId));
    assert forall i :: 0 <= i < |rows| ==> SlotOf(rows'[i]) == SlotOf(rows[i]);
    SameSlots(rows, rows');
    forall i, j | 0 <= i < j < |rows|
      ensures !RanksBefore(rows'[j], rows'[i], sortMode)
    {
      assert !RanksBefore(rows[j], rows[i], sortMode);
    }
  }

  lemma SameSlots(a: seq<ScoreEntry>, b: seq<ScoreEntry>)
    requires |a| == |b| && forall i :: 0 <= i < |a| ==> SlotOf(a[i]) == SlotOf(b[i])
    ensures Slots(a) == Slots(b)
    ensures DistinctSlots(a) ==> DistinctSlots(b)
  {
    assert forall i :: 0 <= i < |a| ==> SlotOf(a[i]) in Slots(b) && SlotOf(b[i]) in Slots(a);
  }

  /** One step, from a cache that answers the query: it still does afterwards, data ids included,
      exactly when the step is safe. */
  lemma {:induction false} StepKeepsCacheExact(cfg: BoardConfig, b: Board, step: Step)
    requires InStep(cfg, b)
    ensures InStep(cfg, Apply(cfg, b, step).0) <==> Safe(cfg, b, step)
    ensures TableOk(Apply(cfg, b, step).0.table)
  {
    match step
    case RecordScore(entry) =>
      UpsertKeepsTop(b.table, b.rows, cfg, Submitted(entry));
    case RecordData(u, c, score, fileId) =>
      if DataError(b.rows, (u, c), score).None? {
        DataKeepsTop(b.table, b.rows, cfg, (u, c), score, fileId);
      }
  }

  /** The cache answers the query at the start and after every step. */
  ghost predicate ExactThroughout(cfg: BoardConfig, b: Board, steps: seq<Step>)
    decreases |steps|
  {
    InStep(cfg, b) && (steps == [] || ExactThroughout(cfg, Apply(cfg, b, steps[0]).0, steps[1..]))
  }

  ghost predicate SafeThroughout(cfg: BoardConfig, b: Board, steps: seq<Step>)
    decreases |steps|
  {
    steps == [] || (Safe(cfg, b, steps[0]) && SafeThroughout(cfg, Apply(cfg, b, steps[0]).0, steps[1..]))
  }

  /** Over every run the cache stays an exact answer throughout if and only if every step of the run
      was safe when it was taken. */
  lemma {:induction false} RunStaysExactIffSafe(cfg: BoardConfig, b: Board, steps: seq<Step>)
    requires InStep(cfg, b)
    ensures ExactThroughout(cfg, b, steps) <==> SafeThroughout(cfg, b, steps)
    decreases |steps|
  {
    if steps != [] {
      StepKeepsCacheExact(cfg, b, steps[0]);
      if Safe(cfg, b, steps[0]) {
        RunStaysExactIffSafe(cfg, Apply(cfg, b, steps[0]).0, steps[1..]);
      }
    }
  }

  /** Every overwrite in the run that the table accepts is strictly better than what it replaces. */
  ghost predicate StrictlyImproving(cfg: BoardConfig, b: Board, steps: seq<Step>)
    decreases |steps|
  {
    steps == [] ||
    (&& (steps[0].RecordScore? && SlotOf(steps[0].entry) in b.table && Accepts(b.table, cfg, steps[0].entry) ==>
           steps[0].entry.score != b.table[SlotOf(steps[0].entry)].score)
     && StrictlyImproving(cfg, Apply(cfg, b, steps[0]).0, steps[1..]))
  }

  /** In normal update mode a run without equal-score resubmissions never loses the exact answer. */
  lemma {:induction false} ImprovingRunStaysExact(cfg: BoardConfig, b: Board, steps: seq<Step>)
    requires cfg.updateMode == 0 && InStep(cfg, b) && StrictlyImproving(cfg, b, steps)
    ensures ExactThroughout(cfg, b, steps)
    decreases |steps|
  {
    if steps != [] {
      if steps[0].RecordScore? && Accepts(b.table, cfg, Submitted(steps[0].entry)) {
        SlotsInTable(b.table, cfg, b.rows);
        SafeReplacements(b.table, b.rows, cfg, Submitted(steps[0].entry));
      }
      StepKeepsCacheExact(cfg, b, steps[0]);
      ImprovingRunStaysExact(cfg, Apply(cfg, b, steps[0]).0, steps[1..]);
    }
  }

  /** In normal update mode only an equal score sent again later can displace. */
  lemma NormalModeDisplacesOnTiesOnly(cfg: BoardConfig, b: Board, entry: ScoreEntry)
    requires cfg.updateMode == 0 && InStep(cfg, b) && !Safe(cfg, b, RecordScore(entry))
    ensures SlotOf(entry) in b.table
    ensures entry.score == b.table[SlotOf(entry)].score && entry.timestamp > b.table[SlotOf(entry)].timestamp
  {
    SlotsInTable(b.table, cfg, b.rows);
    var e := Submitted(entry);
    if !RanksBefore(b.table[SlotOf(e)], e, cfg.sortMode) {
      SafeReplacements(b.table, b.rows, cfg, e);
    }
  }

  /** A board of one rank in normal mode: the leader sends the same score again, the table's best row
      is now the other player's, and the cache still shows the leader. */
  lemma EqualScoreResubmissionBreaksCache()
    ensures var cfg := BoardConfig(1, 0, 0);
      var leader := ScoreEntry(1, 0, 10, "", "", None, 100);
      var second := ScoreEntry(2, 0, 10, "", "", None, 200);
      var b := Board(map[(1, 0) := leader, (2, 0) := second], [leader]);
      var after := Apply(cfg, b, RecordScore(leader.(timestamp := 300))).0;
      && InStep(cfg, b)
      && after.rows == [leader.(timestamp := 300)]
      && IsTopRows(after.table, cfg, [second])
      && !InStep(cfg, after)
  {
    var cfg := BoardConfig(1, 0, 0);
    var leader := ScoreEntry(1, 0, 10, "", "", None, 100);
    var second := ScoreEntry(2, 0, 10, "", "", None, 200);
    var b := Board(map[(1, 0) := leader, (2, 0) := second], [leader]);
    var e := leader.(timestamp := 300);
    TopOfTwo(leader, second, cfg);
    TopOfTwo(second, e, cfg);
    var after := Apply(cfg, b, RecordScore(e)).0;
    assert after.table == map[(2, 0) := second, (1, 0) := e];
    assert Without([leader], (1, 0)) == [];
    assert after.rows == [e];
    assert SlotOf([leader][0]) == (1, 0);
    assert RanksBefore(b.table[(2, 0)], e, 0);
    UpsertKeepsTop(b.table, b.rows, cfg, e);
  }

  lemma TopOfTwo(first: ScoreEntry, other: ScoreEntry, cfg: BoardConfig)
    requires SlotOf(first) != SlotOf(other) && RanksBefore(first, other, cfg.sortMode) && cfg.rankLimit == 1
    ensures IsTopRows(map[SlotOf(first) := first, SlotOf(other) := other], cfg, [first])
    ensures Slots([first]) == {SlotOf(first)}
  {
    var table: Table := map[SlotOf(first) := first, SlotOf(other) := other];
    assert table.Keys == {SlotOf(first), SlotOf(other)};
    assert |table| == |table.Keys| == 2;
    assert SlotOf([first][0]) in Slots([first]);
  }

  /** The SELECT ... ORDER BY ... LIMIT statement: the rows are gathered one by one in whatever
      order the table yields them. */
  method ScoresForBoard(table: Table, cfg: BoardConfig) returns (rows: seq<ScoreEntry>)
    requires TableOk(table)
    ensures IsTopRows(table, cfg, rows)
  {
    rows := [];
    var seen: Table := map[];
    var pending := table.Keys;
    while pending != {}
      invariant pending <= table.Keys
      invariant seen == map s | s in table && s !in pending :: table[s]
      invariant IsTopRows(seen, cfg, rows)
      decreases pending
    {
      var s :| s in pending;
      assert SlotOf(table[s]) !in Slots(rows) by {
        SlotsInTable(seen, cfg, rows);
      }
      UndisplacedKeepsTop(seen, rows, cfg, table[s]);
      rows := InsertRows(rows, table[s], cfg);
      seen := seen[s := table[s]];
      pending := pending - {s};
    }
    assert seen == table;
  }

  /** std::lower_bound over a sorted list: the place found by halving is the first place whose row
      does not rank before e. */
  method LowerBound(rows: seq<ScoreEntry>, e: ScoreEntry, sortMode: nat) returns (pos: nat)
    requires Sorted(rows, sortMode)
    ensures pos == InsertPos(rows, e, sortMode)
  {
    var hi := |rows|;
    pos := 0;
    while pos < hi
      invariant pos <= InsertPos(rows, e, sortMode) <= hi <= |rows|
    {
      var mid := (pos + hi) / 2;
      BeforePlace(rows, e, sortMode, mid);
      if RanksBefore(rows[mid], e, sortMode) {
        pos := mid + 1;
      } else {
        hi := mid;
      }
    }
  }

  // ---------------------------------------------------------------------------------------------
  // The cache object: the list and the index from (user, character) to its place

  type Lookup = map<int, map<int, nat>>

  function Place(lookup: Lookup, s: Slot): Option<nat> {
    if s.0 in lookup && s.1 in lookup[s.0] then Some(lookup[s.0][s.1]) else None
  }

  function Put(lookup: Lookup, s: Slot, i: nat): (r: Lookup)
    ensures Place(r, s) == Some(i)
    ensures forall t: Slot :: t != s ==> Place(r, t) == Place(lookup, t)
  {
    lookup[s.0 := (if s.0 in lookup then lookup[s.0] else map[])[s.1 := i]]
  }

  function Drop(lookup: Lookup, s: Slot): (r: Lookup)
    requires s.0 in lookup
    ensures Place(r, s) == None
    ensures forall t: Slot :: t != s ==> Place(r, t) == Place(lookup, t)
  {
    lookup[s.0 := lookup[s.0] - {s.1}]
  }

  /** The place of a slot in the list, by search. */
  function Find(rows: seq<ScoreEntry>, s: Slot): Option<nat> {
    var i := SlotIndex(rows, s);
    if i < |rows| then Some(i) else None
  }

  /** The index sends each listed slot to its place, and lists nothing else. */
  ghost predicate Indexed(rows: seq<ScoreEntry>, lookup: Lookup) {
    DistinctSlots(rows) && forall s: Slot :: Place(lookup, s) == Find(rows, s)
  }

  lemma FindIs(rows: seq<ScoreEntry>, k: nat)
    requires DistinctSlots(rows) && k < |rows|
    ensures Find(rows, SlotOf(rows[k])) == Some(k)
  {
  }

  /** An index is coherent if and only if it is the inverse of the list: the two directions. */
  lemma IndexedIsBijection(rows: seq<ScoreEntry>, lookup: Lookup)
    ensures Indexed(rows, lookup) <==> Inverse(rows, lookup)
  {
    if Indexed(rows, lookup) {
      forall i | 0 <= i < |rows|
        ensures Place(lookup, SlotOf(rows[i])) == Some(i)
      {
        FindIs(rows, i);
      }
    }
    if Inverse(rows, lookup) {
      forall s: Slot
        ensures Place(lookup, s) == Find(rows, s)
      {
        var k := SlotIndex(rows, s);
        assert k < |rows| ==> Place(lookup, SlotOf(rows[k])) == Some(k);
      }
    }
  }

  /** `lookup[u][c] == i` exactly when `rows[i]` is the entry of (u, c). */
  ghost predicate Inverse(rows: seq<ScoreEntry>, lookup: Lookup) {
    && (forall i :: 0 <= i < |rows| ==> Place(lookup, SlotOf(rows[i])) == Some(i))
    && (forall s: Slot :: Place(lookup, s).Some? ==>
          Place(lookup, s).value < |rows| && SlotOf(rows[Place(lookup, s).value]) == s)
  }

  lemma FindAfterRemoval(rows: seq<ScoreEntry>, pos: nat, s: Slot)
    requires DistinctSlots(rows) && pos < |rows|
    ensures var cut := rows[..pos] + rows[pos + 1..];
      Find(cut, s) == if s == SlotOf(rows[pos]) then None
                      else match Find(rows, s)
                        case None => None
                        case Some(k) => Some(if k < pos then k else k - 1)
  {
    var cut := rows[..pos] + rows[pos + 1..];
    CutDistinct(rows, pos);
    if Find(rows, s).Some? && s != SlotOf(rows[pos]) {
      var k := SlotIndex(rows, s);
      FindIs(cut, if k < pos then k else k - 1);
    } else {
      assert forall i :: 0 <= i < |rows| && i != pos ==> SlotOf(rows[i]) != s;
      assert forall i :: 0 <= i < |cut| ==> SlotOf(cut[i]) != s;
    }
  }

  lemma CutDistinct(rows: seq<ScoreEntry>, pos: nat)
    requires DistinctSlots(rows) && pos < |rows|
    ensures var cut := rows[..pos] + rows[pos + 1..];
      && DistinctSlots(cut)
      && |cut| == |rows| - 1
      && (forall i :: 0 <= i < |cut| ==> cut[i] == rows[if i < pos then i else i + 1])
  {
  }

  lemma FindAfterInsertion(base: seq<ScoreEntry>, e: ScoreEntry, pos: nat, s: Slot)
    requires DistinctSlots(base) && pos <= |base| && Find(base, SlotOf(e)) == None
    ensures var grown := base[..pos] + [e] + base[pos..];
      && DistinctSlots(grown)
      && Find(grown, s) == if s == SlotOf(e) then Some(pos)
                           else match Find(base, s)
                             case None => None
                             case Some(k) => Some(if k < pos then k else k + 1)
  {
    var grown := base[..pos] + [e] + base[pos..];
    GrowDistinct(base, e, pos);
    assert grown[pos] == e;
    if s == SlotOf(e) {
      FindIs(grown, pos);
    } else if Find(base, s).Some? {
      var k := SlotIndex(base, s);
      FindIs(grown, if k < pos then k else k + 1);
    } else {
      assert forall i :: 0 <= i < |base| ==> SlotOf(base[i]) != s;
      assert forall i :: 0 <= i < |grown| ==> SlotOf(grown[i]) != s;
    }
  }

  lemma GrowDistinct(base: seq<ScoreEntry>, e: ScoreEntry, pos: nat)
    requires DistinctSlots(base) && pos <= |base| && Find(base, SlotOf(e)) == None
    ensures var grown := base[..pos] + [e] + base[pos..];
      && DistinctSlots(grown)
      && |grown| == |base| + 1
      && (forall i :: 0 <= i < |grown| ==>
            grown[i] == if i < pos then base[i] else if i == pos then e else base[i - 1])
  {
    var grown := base[..pos] + [e] + base[pos..];
    assert forall j :: 0 <= j < |base| ==> SlotOf(base[j]) != SlotOf(e);
    forall i, j | 0 <= i < j < |grown|
      ensures SlotOf(grown[i]) != SlotOf(grown[j])
    {
      var i', j' := if i < pos then i else i - 1, if j < pos then j else j - 1;
      assert i != pos ==> grown[i] == base[i'];
      assert j != pos ==> grown[j] == base[j'];
    }
  }

  lemma FindAfterTrim(rows: seq<ScoreEntry>, s: Slot)
    requires DistinctSlots(rows) && rows != []
    ensures var cut := rows[..|rows| - 1];
      && DistinctSlots(cut)
      && Find(cut, s) == if s == SlotOf(rows[|rows| - 1]) then None else Find(rows, s)
  {
    var last := |rows| - 1;
    assert rows[..last] + rows[last + 1..] == rows[..last];
    CutDistinct(rows, last);
    FindAfterRemoval(rows, last, s);
  }

  /** The index after the entries of the rows at places from..to were rewritten. */
  ghost predicate Reindexed(rows: seq<ScoreEntry>, from: nat, to: int, before: Lookup, after: Lookup) {
    forall s: Slot :: Place(after, s) ==
      if Find(rows, s).Some? && from <= Find(rows, s).value < to then Find(rows, s) else Place(before, s)
  }

  class ScoreTableCache {
    var sorted: seq<ScoreEntry>
    var lookup: Lookup

    ghost predicate Valid()
      reads this
    {
      Indexed(sorted, lookup)
    }

    constructor ()
      ensures Valid() && sorted == []
    {
      sorted, lookup := [], map[];
    }

    /** Rewrites the index entries of the rows from a place on. */
    method Reindex(from: nat)
      requires DistinctSlots(sorted)
      modifies this`lookup
      ensures Reindexed(sorted, from, |sorted|, old(lookup), lookup)
    {
      var i := from;
      while i < |sorted|
        invariant from <= i
        invariant Reindexed(sorted, from, i, old(lookup), lookup)
      {
        FindIs(sorted, i);
        lookup := Put(lookup, SlotOf(sorted[i]), i);
        i := i + 1;
      }
    }

    method LoadTable(entries: seq<ScoreEntry>)
      requires DistinctSlots(entries)
      modifies this
      ensures Valid() && sorted == entries
    {
      sorted := entries;
      lookup := map[];
      Reindex(0);
    }

    /** Removes the entry of the slot, when there is one, and says where it stood. */
    method RemoveExisting(slot: Slot) returns (removedAt: Option<nat>)
      requires Valid()
      modifies this
      ensures Valid()
      ensures sorted == Without(old(sorted), slot) && Find(sorted, slot) == None
    {
      removedAt := Place(lookup, slot);
      if removedAt.Some? {
        var pos := removedAt.value;
        sorted := sorted[..pos] + sorted[pos + 1..];
        lookup := Drop(lookup, slot);
        CutDistinct(old(sorted), pos);
        Reindex(pos);
        forall s: Slot
          ensures Place(lookup, s) == Find(sorted, s) && (s == slot ==> Find(sorted, s) == None)
        {
          FindAfterRemoval(old(sorted), pos, s);
        }
      }
    }

    /** Puts the entry at a place and moves the index entries behind it. */
    method PlaceAt(entry: ScoreEntry, insertPos: nat, removedAt: Option<nat>)
      requires Valid() && Find(sorted, SlotOf(entry)) == None && insertPos <= |sorted|
      modifies this
      ensures Valid()
      ensures sorted == old(sorted)[..insertPos] + [entry] + old(sorted)[insertPos..]
    {
      GrowDistinct(sorted, entry, insertPos);
      sorted := sorted[..insertPos] + [entry] + sorted[insertPos..];
      lookup := Put(lookup, SlotOf(entry), insertPos);
      var reindexFrom := insertPos + 1;
      if removedAt.Some? {
        reindexFrom := Min(reindexFrom, removedAt.value);
      }
      Reindex(reindexFrom);
      forall s: Slot
        ensures Place(lookup, s) == Find(sorted, s)
      {
        FindAfterInsertion(old(sorted), entry, insertPos, s);
      }
    }

    /** Drops the last entry. */
    method TrimLast()
      requires Valid() && sorted != []
      modifies this
      ensures Valid() && sorted == old(sorted)[..|old(sorted)| - 1]
    {
      var last := |sorted| - 1;
      FindIs(sorted, last);
      lookup := Drop(lookup, SlotOf(sorted[last]));
      sorted := sorted[..last];
      forall s: Slot
        ensures DistinctSlots(sorted) && Place(lookup, s) == Find(sorted, s)
      {
        FindAfterTrim(old(sorted), s);
      }
    }

    /** The second half of an insertion, once the slot is free. */
    method InsertAbsent(cfg: BoardConfig, entry: ScoreEntry, removedAt: Option<nat>) returns (rank: nat)
      requires Valid() && Sorted(sorted, cfg.sortMode) && Find(sorted, SlotOf(entry)) == None
      modifies this
      ensures Valid()
      ensures sorted == InsertAbsentRows(old(sorted), entry, cfg)
      ensures rank == InsertAbsentRank(old(sorted), entry, cfg)
    {
      var insertPos := LowerBound(sorted, entry, cfg.sortMode);
      var fits := Fits(sorted, insertPos, cfg);
      if !fits {
        return cfg.rankLimit + 1;
      }
      PlaceAt(entry, insertPos, removedAt);
      if |sorted| > cfg.rankLimit {
        TrimLast();
      }
      rank := insertPos + 1;
    }

    /** Replaces or adds the entry of its slot and reports its rank. */
    method InsertScore(cfg: BoardConfig, entry: ScoreEntry) returns (rank: nat)
      requires Valid() && Sorted(sorted, cfg.sortMode)
      modifies this
      ensures Valid()
      ensures sorted == InsertRows(old(sorted), entry, cfg)
      ensures rank == InsertRank(old(sorted), entry, cfg)
    {
      WithoutStaysSorted(sorted, SlotOf(entry), cfg.sortMode);
      var removedAt := RemoveExisting(SlotOf(entry));
      rank := InsertAbsent(cfg, entry, removedAt);
    }

    method ContainsScoreWithNoData(userId: int, charId: int, score: int) returns (error: Option<Outcome>)
      requires Valid()
      ensures error == DataError(sorted, (userId, charId), score)
    {
      var place := Place(lookup, (userId, charId));
      if place.None? {
        return Some(NotFound);
      }
      var e := sorted[place.value];
      if e.score != score {
        return Some(Invalid);
      }
      if e.dataId.Some? {
        return Some(HasData);
      }
      return None;
    }

    method SetGameData(userId: int, charId: int, dataId: nat) returns (error: Option<Outcome>)
      requires Valid()
      modifies this`sorted
      ensures Valid()
      ensures sorted == WithData(old(sorted), (userId, charId), dataId)
      ensures error == if Find(old(sorted), (userId, charId)).None? then Some(NotFound) else None
    {
      var place := Place(lookup, (userId, charId));
      if place.None? {
        return Some(NotFound);
      }
      var i := place.value;
      sorted := sorted[i := sorted[i].(dataId := Some(dataId))];
      SameSlots(old(sorted), sorted);
      forall s: Slot
        ensures Find(sorted, s) == Find(old(sorted), s)
      {
        SameFind(old(sorted), sorted, s);
      }
      error := None;
    }

    /** The cached rows from a rank on, each with its rank; rank 0 is taken as rank 1. */
    method GetScoreRange(startRank: nat, numRanks: nat) returns (found: seq<(nat, ScoreEntry)>)
      requires Max(startRank, 1) - 1 + numRanks < 0x8000_0000
      ensures var start := Max(startRank, 1) - 1;
        && |found| == Max(0, Min(numRanks, |sorted| - start))
        && forall k :: 0 <= k < |found| ==> found[k] == (start + k + 1, sorted[start + k])
    {
      var start := if startRank == 0 then 0 else startRank - 1;
      var end := Min(start + numRanks, |sorted|);
      found := [];
      var i := start;
      while i < end
        invariant start <= i && (start <= end ==> i <= end) && (end < start ==> i == start)
        invariant |found| == i - start
        invariant forall k :: 0 <= k < |found| ==> found[k] == (start + k + 1, sorted[start + k])
      {
        found := found + [(i + 1, sorted[i])];
        i := i + 1;
      }
    }

    /** For each requested slot, in request order: its place counted from one with its row, or a
        blank for a slot that is not on the board. */
    method GetScoreByIds(ids: seq<Slot>) returns (found: seq<Option<(nat, ScoreEntry)>>)
      requires Valid()
      ensures |found| == |ids|
      ensures forall k :: 0 <= k < |ids| ==>
        match found[k]
        case None => ids[k] !in Slots(sorted)
        case Some(r) => 1 <= r.0 <= |sorted| && sorted[r.0 - 1] == r.1 && SlotOf(r.1) == ids[k]
    {
      found := [];
      for k := 0 to |ids|
        invariant |found| == k
        invariant forall j :: 0 <= j < k ==>
          match found[j]
          case None => ids[j] !in Slots(sorted)
          case Some(r) => 1 <= r.0 <= |sorted| && sorted[r.0 - 1] == r.1 && SlotOf(r.1) == ids[j]
      {
        var place := Place(lookup, ids[k]);
        if place.None? {
          found := found + [None];
        } else {
          found := found + [Some((place.value + 1, sorted[place.value]))];
        }
      }
    }
  }

  lemma SameFind(a: seq<ScoreEntry>, b: seq<ScoreEntry>, s: Slot)
    requires |a| == |b| && forall i :: 0 <= i < |a| ==> SlotOf(a[i]) == SlotOf(b[i])
    ensures Find(a, s) == Find(b, s)
  {
    var i, j := SlotIndex(a, s), SlotIndex(b, s);
    assert i < |a| ==> SlotOf(b[i]) == s;
    assert j < |b| ==> SlotOf(a[j]) == s;
  }

  lemma WithoutStaysSorted(rows: seq<ScoreEntry>, s: Slot, sortMode: nat)
    requires DistinctSlots(rows) && Sorted(rows, sortMode)
    ensures Sorted(Without(rows, s), sortMode)
  {
    WithoutFacts(rows, s, sortMode);
  }

  /** The command handlers: the table statement first, the cache second. */
  class ScoreService {
    const cfg: BoardConfig
    const cache: ScoreTableCache
    var table: Table

    ghost predicate Valid()
      reads this, cache
    {
      cache.Valid() && Sorted(cache.sorted, cfg.sortMode)
    }

    ghost function State(): Board
      reads this, cache
    {
      Board(table, cache.sorted)
    }

    /** Start-up: the cache is loaded from the query. */
    constructor (cfg: BoardConfig, table: Table)
      requires TableOk(table)
      ensures Valid() && fresh(cache) && this.cfg == cfg && this.table == table
      ensures InStep(cfg, State())
    {
      this.cfg := cfg;
      this.table := table;
      var c := new ScoreTableCache();
      cache := c;
      new;
      var rows := ScoresForBoard(table, cfg);
      c.LoadTable(rows);
    }

    method RecordScore(entry: ScoreEntry) returns (outcome: Outcome)
      requires Valid()
      modifies this`table, cache
      ensures Valid()
      ensures (State(), outcome) == Apply(cfg, old(State()), Step.RecordScore(entry))
    {
      var e := Submitted(entry);
      if !Accepts(table, cfg, e) {
        return NotBest;
      }
      table := table[SlotOf(e) := e];
      InsertedStaysSorted(cache.sorted, e, cfg);
      var rank := cache.InsertScore(cfg, e);
      outcome := Ranked(rank);
    }

    method RecordScoreData(userId: int, pcid: int, score: int, fileId: nat) returns (outcome: Outcome)
      requires Valid()
      modifies this`table, cache
      ensures Valid()
      ensures (State(), outcome) == Apply(cfg, old(State()), RecordData(userId, pcid, score, fileId))
    {
      var error := cache.ContainsScoreWithNoData(userId, pcid, score);
      if error.Some? {
        return error.value;
      }
      if fileId == 0 {
        return DbFail;
      }
      DataKeepsShape(cache.sorted, (userId, pcid), fileId, cfg.sortMode);
      var missing := cache.SetGameData(userId, pcid, fileId);
      if missing.Some? {
        return NotFound;
      }
      table := TableWithData(table, (userId, pcid), score, fileId);
      outcome := DataStored;
    }
  }

  lemma InsertedStaysSorted(rows: seq<ScoreEntry>, e: ScoreEntry, cfg: BoardConfig)
    requires DistinctSlots(rows) && Sorted(rows, cfg.sortMode)
    ensures Sorted(InsertRows(rows, e, cfg), cfg.sortMode)
  {
    var base := Without(rows, SlotOf(e));
    WithoutFacts(rows, SlotOf(e), cfg.sortMode);
    GrownSorted(base, e, cfg.sortMode);
  }
}
