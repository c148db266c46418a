/** Friend requests, friendships and blocks in the relation table, and the friend lists that online users'
    entries hold. */
module Friends {
  import opened Common

  /** One user's bits in a row: Friend (1) and Blocked (2). */
  datatype Status = Status(friend: bool, blocked: bool)

  const NOTHING := Status(false, false)

  /** A row seen from one side. */
  datatype Rel = Rel(caller: Status, other: Status)

  function Flipped(r: Rel): Rel {
    Rel(r.other, r.caller)
  }

  type Pair = (int, int)

  /** The friend lists of the users online: friend ids with the name each was entered under. */
  type Online = map<int, map<int, string>>

  datatype State = State(rows: map<Pair, Rel>, online: Online)

  /** Accounts: a lookup that accepts several spellings of a name, and each account's own name. */
  datatype Directory = Directory(idOf: string -> Option<int>, nameOf: map<int, string>)

  ghost predicate DirectoryOk(names: Directory) {
    && (forall u :: u in names.nameOf ==> names.idOf(names.nameOf[u]) == Some(u))
    && (forall name :: names.idOf(name).Some? ==> names.idOf(name).value in names.nameOf)
  }

  const NEW_STATE := State(map[], map[])

  // ---------------------------------------------------------------------------------------------
  // The table: one row a pair, the lower id first

  function Ordered(a: int, b: int): Pair {
    if a < b then (a, b) else (b, a)
  }

  /** GetRelStatus */
  function Row(s: State, a: int, b: int): Option<Rel> {
    if Ordered(a, b) !in s.rows then None
    else Some(if a < b then s.rows[(a, b)] else Flipped(s.rows[(b, a)]))
  }

  /** SetRelStatus */
  function WithRow(s: State, a: int, b: int, r: Rel): State {
    s.(rows := s.rows[Ordered(a, b) := if a < b then r else Flipped(r)])
  }

  /** DeleteRel */
  function WithoutRow(s: State, a: int, b: int): State {
    s.(rows := s.rows - {Ordered(a, b)})
  }

  function StoredOrDropped(s: State, a: int, b: int, r: Rel): State {
    if r == Rel(NOTHING, NOTHING) then WithoutRow(s, a, b) else WithRow(s, a, b, r)
  }

  /** What was written is read back, from either side, and no other pair is touched. */
  lemma RowReads(s: State, a: int, b: int, r: Rel, x: int, y: int)
    requires a != b && x != y
    ensures Row(WithRow(s, a, b, r), x, y) ==
            if x == a && y == b then Some(r) else if x == b && y == a then Some(Flipped(r)) else Row(s, x, y)
    ensures Row(WithoutRow(s, a, b), x, y) == if Ordered(x, y) == Ordered(a, b) then None else Row(s, x, y)
  {
  }

  /** Both sides see the same row, each from its own end. */
  lemma RowFlips(s: State, a: int, b: int)
    requires a != b
    ensures Row(s, b, a) == if Row(s, a, b).Some? then Some(Flipped(Row(s, a, b).value)) else None
  {
  }

  predicate Mutual(s: State, a: int, b: int) {
    a != b && Row(s, a, b).Some? && Row(s, a, b).value.caller.friend && Row(s, a, b).value.other.friend
  }

  predicate Sent(s: State, a: int, b: int) {
    a != b && Row(s, a, b).Some? && Row(s, a, b).value.caller.friend && !Row(s, a, b).value.other.friend
  }

  predicate Received(s: State, a: int, b: int) {
    a != b && Row(s, a, b).Some? && !Row(s, a, b).value.caller.friend && Row(s, a, b).value.other.friend
  }

  predicate Blocks(s: State, a: int, b: int) {
    a != b && Row(s, a, b).Some? && Row(s, a, b).value.caller.blocked
  }

  /** A friendship is one from both sides; what one side has sent the other has received. */
  lemma RelationsMatch(s: State, a: int, b: int)
    ensures Mutual(s, a, b) <==> Mutual(s, b, a)
    ensures Sent(s, a, b) <==> Received(s, b, a)
  {
    if a != b {
      RowFlips(s, a, b);
    }
  }

  // ---------------------------------------------------------------------------------------------
  // The friend lists

  function Entered(online: Online, user: int, id: int, name: string): Online {
    if user in online then online[user := online[user][id := name]] else online
  }

  function Dropped(online: Online, user: int, id: int): Online {
    if user in online then online[user := online[user] - {id}] else online
  }

  /** Each enters the other, if online. */
  function Befriended(online: Online, a: int, nameOfB: string, b: int, nameOfA: string): Online {
    Entered(Entered(online, a, b, nameOfB), b, a, nameOfA)
  }

  function Parted(online: Online, a: int, b: int): Online {
    Dropped(Dropped(online, a, b), b, a)
  }

  // ---------------------------------------------------------------------------------------------
  // The commands on values

  datatype Call =
    | AddFriend(user: int, npid: string)
    | RemoveFriend(user: int, npid: string)
    | AddBlock(user: int, npid: string)
    | RemoveBlock(user: int, npid: string)
    | Login(npid: string)
    | Disconnect(user: int)

  datatype Outcome = NoError | NotFound | InvalidInput | Blocked | AlreadyFriend | AlreadyLoggedIn | InvalidLogin

  /** The user of a command is one whose login the server accepted. */
  predicate FromAccount(names: Directory, c: Call) {
    c.Login? || c.user in names.nameOf
  }

  function OrNothing(r: Option<Rel>): Rel {
    if r.Some? then r.value else Rel(NOTHING, NOTHING)
  }

  function Added(s: State, names: Directory, user: int, npid: string, id: int): (State, Outcome)
    requires user in names.nameOf
  {
    var rel := OrNothing(Row(s, user, id));
    if rel.caller.blocked || rel.other.blocked then (s, Blocked)
    else if rel.caller.friend then (s, AlreadyFriend)
    else
      var stored := WithRow(s, user, id, Rel(rel.caller.(friend := true), rel.other));
      (if rel.other.friend then
         stored.(online := Befriended(s.online, user, npid, id, names.nameOf[user]))
       else stored, NoError)
  }

  function Removed(s: State, user: int, id: int): (State, Outcome) {
    var row := Row(s, user, id);
    if row.None? || (!row.value.caller.friend && !row.value.other.friend) then (s, NotFound)
    else
      var rel := Rel(row.value.caller.(friend := false), row.value.other.(friend := false));
      (StoredOrDropped(s, user, id, rel).(online := Parted(s.online, user, id)), NoError)
  }

  function BlockAdded(s: State, user: int, id: int): (State, Outcome) {
    var rel := OrNothing(Row(s, user, id));
    var stored := WithRow(s, user, id, Rel(Status(false, true), rel.other.(friend := false)));
    (if rel.caller.friend && rel.other.friend then stored.(online := Parted(s.online, user, id)) else stored, NoError)
  }

  function BlockRemoved(s: State, user: int, id: int): (State, Outcome) {
    var row := Row(s, user, id);
    if row.None? || !row.value.caller.blocked then (s, NotFound)
    else (StoredOrDropped(s, user, id, Rel(row.value.caller.(blocked := false), row.value.other)), NoError)
  }

  /** The friends of a user, under their own names. */
  function FriendsOf(s: State, names: Directory, user: int): map<int, string> {
    map v | v in names.nameOf && Mutual(s, user, v) :: names.nameOf[v]
  }

  function Greeted(online: Online, friends: set<int>, user: int, npid: string): Online {
    map f | f in online :: if f in friends then online[f][user := npid] else online[f]
  }

  /** A login enters the user's friends, and the user at every friend who is online. */
  function LoggedIn(s: State, names: Directory, user: int, npid: string): State {
    var friends := FriendsOf(s, names, user);
    s.(online := Greeted(s.online, friends.Keys, user, npid)[user := friends])
  }

  /** Login wants the account's own spelling; the other commands take any. */
  function Step(s: State, names: Directory, c: Call): (State, Outcome)
    requires FromAccount(names, c)
  {
    if c.Disconnect? then (s.(online := s.online - {c.user}), NoError)
    else
      var id := names.idOf(c.npid);
      if c.Login? then
        if id.None? || id.value !in names.nameOf || names.nameOf[id.value] != c.npid then (s, InvalidLogin)
        else if id.value in s.online then (s, AlreadyLoggedIn)
        else (LoggedIn(s, names, id.value, c.npid), NoError)
      else if id.None? then (s, NotFound)
      else if id.value == c.user then (s, InvalidInput)
      else
        match c
        case AddFriend(user, npid) => Added(s, names, user, npid, id.value)
        case RemoveFriend(user, _) => Removed(s, user, id.value)
        case AddBlock(user, _) => BlockAdded(s, user, id.value)
        case RemoveBlock(user, _) => BlockRemoved(s, user, id.value)
        case _ => (s, NoError)
  }

  predicate AllFromAccounts(names: Directory, calls: seq<Call>) {
    forall c :: c in calls ==> FromAccount(names, c)
  }

  function After(s: State, names: Directory, calls: seq<Call>): State
    requires AllFromAccounts(names, calls)
  {
    if calls == [] then s
    else
      assert calls[|calls| - 1] in calls;
      Step(After(s, names, calls[..|calls| - 1]), names, calls[|calls| - 1]).0
  }

  // ---------------------------------------------------------------------------------------------
  // What every run keeps

  /** A row says something, and a block on either side leaves no friend bit on either. */
  predicate RelOk(r: Rel) {
    && r != Rel(NOTHING, NOTHING)
    && (r.caller.blocked || r.other.blocked ==> !r.caller.friend && !r.other.friend)
  }

  ghost predicate TableOk(s: State, names: Directory) {
    forall k :: k in s.rows ==> k.0 < k.1 && k.0 in names.nameOf && k.1 in names.nameOf && RelOk(s.rows[k])
  }

  /** An online user's list holds exactly the user's friends, each under a spelling of its name. */
  ghost predicate ListsOk(s: State, names: Directory) {
    forall u, v :: u in s.online ==>
      (v in s.online[u] <==> Mutual(s, u, v)) && (v in s.online[u] ==> names.idOf(s.online[u][v]) == Some(v))
  }

  ghost predicate Inv(s: State, names: Directory) {
    TableOk(s, names) && ListsOk(s, names)
  }

  lemma RowOk(s: State, names: Directory, a: int, b: int)
    requires TableOk(s, names) && a != b && Row(s, a, b).Some?
    ensures RelOk(Row(s, a, b).value)
  {
  }

  lemma WithRowTable(s: State, names: Directory, a: int, b: int, r: Rel)
    requires TableOk(s, names) && a != b && a in names.nameOf && b in names.nameOf && RelOk(r)
    ensures TableOk(WithRow(s, a, b, r), names)
  {
  }

  lemma WithoutRowTable(s: State, names: Directory, a: int, b: int)
    requires TableOk(s, names)
    ensures TableOk(WithoutRow(s, a, b), names)
  {
  }

  /** Lists follow a change of one pair that both sides' lists are told of. */
  lemma PairChanged(s: State, t: State, names: Directory, a: int, b: int, nameOfA: string, nameOfB: string)
    requires ListsOk(s, names) && a != b
    requires names.idOf(nameOfA) == Some(a) && names.idOf(nameOfB) == Some(b)
    requires forall x, y :: x != y && !(x == a && y == b) && !(x == b && y == a) ==> Row(t, x, y) == Row(s, x, y)
    requires if Mutual(t, a, b) then t.online == Befriended(s.online, a, nameOfB, b, nameOfA)
             else t.online == Parted(s.online, a, b) || (!Mutual(s, a, b) && t.online == s.online)
    ensures ListsOk(t, names)
  {
    hide Row;
    RelationsMatch(t, a, b);
    RelationsMatch(s, a, b);
    forall u, v | u in t.online
      ensures (v in t.online[u] <==> Mutual(t, u, v)) && (v in t.online[u] ==> names.idOf(t.online[u][v]) == Some(v))
    {
      assert v in s.online[u] <==> Mutual(s, u, v);
      if u == a && v == b {
      } else if u == b && v == a {
      } else {
        assert Mutual(t, u, v) == Mutual(s, u, v);
      }
    }
  }

  lemma LoginKeepsLists(s: State, names: Directory, user: int, npid: string)
    requires Inv(s, names) && DirectoryOk(names) && user !in s.online
    requires user in names.nameOf && names.nameOf[user] == npid
    ensures ListsOk(LoggedIn(s, names, user, npid), names)
  {
    var t := LoggedIn(s, names, user, npid);
    hide Row;
    forall u, v | u in t.online
      ensures (v in t.online[u] <==> Mutual(t, u, v)) && (v in t.online[u] ==> names.idOf(t.online[u][v]) == Some(v))
    {
      assert Mutual(t, u, v) == Mutual(s, u, v) by { SameRows(s, t, u, v); }
      if Mutual(s, u, v) {
        MutualAccounts(s, names, u, v);
      }
      RelationsMatch(s, u, v);
    }
  }

  lemma SameRows(s: State, t: State, a: int, b: int)
    requires s.rows == t.rows
    ensures Row(s, a, b) == Row(t, a, b)
  {
  }

  lemma MutualAccounts(s: State, names: Directory, a: int, b: int)
    requires TableOk(s, names) && Mutual(s, a, b)
    ensures a in names.nameOf && b in names.nameOf
  {
  }

  /** The command names a pair of two different accounts. */
  predicate OnPair(names: Directory, c: Call, a: int, b: int) {
    !c.Login? && !c.Disconnect? && c.user == a && names.idOf(c.npid) == Some(b) && a != b
  }

  lemma PairStepKeeps(s: State, names: Directory, c: Call, a: int, b: int)
    requires DirectoryOk(names) && Inv(s, names) && FromAccount(names, c) && OnPair(names, c, a, b)
    ensures Inv(Step(s, names, c).0, names)
  {
    var t := Step(s, names, c).0;
    if t != s {
      var rel := OrNothing(Row(s, a, b));
      if Row(s, a, b).Some? {
        RowOk(s, names, a, b);
      }
      var r := match c
        case AddFriend(_, _) => Rel(rel.caller.(friend := true), rel.other)
        case RemoveFriend(_, _) => Rel(rel.caller.(friend := false), rel.other.(friend := false))
        case AddBlock(_, _) => Rel(Status(false, true), rel.other.(friend := false))
        case _ => Rel(rel.caller.(blocked := false), rel.other);
      var stored := StoredOrDropped(s, a, b, r);
      assert t.rows == stored.rows;
      if r == Rel(NOTHING, NOTHING) {
        WithoutRowTable(s, names, a, b);
      } else {
        WithRowTable(s, names, a, b, r);
      }
      forall x, y | x != y && !(x == a && y == b) && !(x == b && y == a)
        ensures Row(t, x, y) == Row(s, x, y)
      {
        RowReads(s, a, b, r, x, y);
        SameRows(stored, t, x, y);
      }
      RowReads(s, a, b, r, a, b);
      SameRows(stored, t, a, b);
      assert Mutual(t, a, b) == (r.caller.friend && r.other.friend);
      PairChanged(s, t, names, a, b, names.nameOf[a], c.npid);
    }
  }

  /** Every call keeps the table's rows meaningful and every online user's list true to it. */
  lemma StepKeeps(s: State, names: Directory, c: Call)
    requires DirectoryOk(names) && Inv(s, names) && FromAccount(names, c)
    ensures Inv(Step(s, names, c).0, names)
  {
    var t := Step(s, names, c).0;
    if t == s {
    } else if c.Disconnect? {
      forall u, v | u in t.online
        ensures (v in t.online[u] <==> Mutual(t, u, v)) && (v in t.online[u] ==> names.idOf(t.online[u][v]) == Some(v))
      {
        SameRows(s, t, u, v);
        assert t.online[u] == s.online[u];
        assert v in s.online[u] <==> Mutual(s, u, v);
      }
    } else if c.Login? {
      LoginKeepsLists(s, names, names.idOf(c.npid).value, c.npid);
    } else {
      PairStepKeeps(s, names, c, c.user, names.idOf(c.npid).value);
    }
  }

  lemma {:induction false} RunKeeps(s: State, names: Directory, calls: seq<Call>)
    requires DirectoryOk(names) && Inv(s, names) && AllFromAccounts(names, calls)
    ensures Inv(After(s, names, calls), names)
    decreases |calls|
  {
    if calls != [] {
      assert calls[|calls| - 1] in calls;
      RunKeeps(s, names, calls[..|calls| - 1]);
      StepKeeps(After(s, names, calls[..|calls| - 1]), names, calls[|calls| - 1]);
    }
  }

  /** In every reachable state a block on either side leaves neither a friendship nor a request between the two,
      what one has sent the other has received, and two users online list each other or neither does. */
  lemma ReachableRelations(names: Directory, calls: seq<Call>, a: int, b: int)
    requires DirectoryOk(names) && AllFromAccounts(names, calls)
    ensures var s := After(NEW_STATE, names, calls);
            && (Blocks(s, a, b) ==> !Mutual(s, a, b) && !Sent(s, a, b) && !Received(s, a, b))
            && (Sent(s, a, b) <==> Received(s, b, a))
            && (a in s.online && b in s.online ==>
                  (b in s.online[a] <==> Mutual(s, a, b)) && (b in s.online[a] <==> a in s.online[b]))
  {
    RunKeeps(NEW_STATE, names, calls);
    var s := After(NEW_STATE, names, calls);
    if a != b && Row(s, a, b).Some? {
      RowOk(s, names, a, b);
    }
    RelationsMatch(s, a, b);
  }

  // ---------------------------------------------------------------------------------------------
  // The table against the history: a pair's bits, read off the calls made on it

  /** a's last word on blocking b is a block. */
  predicate BlockedIn(names: Directory, calls: seq<Call>, a: int, b: int) {
    if calls == [] then false
    else
      var c, before := calls[|calls| - 1], calls[..|calls| - 1];
      if OnPair(names, c, a, b) && c.AddBlock? then true
      else if OnPair(names, c, a, b) && c.RemoveBlock? then false
      else BlockedIn(names, before, a, b)
  }

  /** a asked for b's friendship while neither blocked the other, and neither has blocked the other or
      taken the friendship back since. */
  predicate AskedIn(names: Directory, calls: seq<Call>, a: int, b: int) {
    if calls == [] then false
    else
      var c, before := calls[|calls| - 1], calls[..|calls| - 1];
      if OnPair(names, c, a, b) && c.AddFriend?
         && !BlockedIn(names, before, a, b) && !BlockedIn(names, before, b, a) then true
      else if (OnPair(names, c, a, b) || OnPair(names, c, b, a)) && (c.RemoveFriend? || c.AddBlock?) then false
      else AskedIn(names, before, a, b)
  }

  function StatusIn(names: Directory, calls: seq<Call>, a: int, b: int): Status {
    Status(AskedIn(names, calls, a, b), BlockedIn(names, calls, a, b))
  }

  /** What a call by a on b makes of their row. */
  function Told(c: Call, r: Rel): Rel {
    match c
    case AddFriend(_, _) => if r.caller.blocked || r.other.blocked then r else Rel(r.caller.(friend := true), r.other)
    case RemoveFriend(_, _) => Rel(r.caller.(friend := false), r.other.(friend := false))
    case AddBlock(_, _) => Rel(Status(false, true), r.other.(friend := false))
    case RemoveBlock(_, _) => Rel(r.caller.(blocked := false), r.other)
    case _ => r
  }

  lemma CallersRow(s: State, names: Directory, c: Call, a: int, b: int)
    requires FromAccount(names, c) && OnPair(names, c, a, b)
    ensures OrNothing(Row(Step(s, names, c).0, a, b)) == Told(c, OrNothing(Row(s, a, b)))
  {
  }

  lemma OthersRow(s: State, names: Directory, c: Call, a: int, b: int)
    requires FromAccount(names, c) && a != b && !OnPair(names, c, a, b) && !OnPair(names, c, b, a)
    ensures Row(Step(s, names, c).0, a, b) == Row(s, a, b)
  {
  }

  /** One call's effect on one pair's row, seen from either side. */
  lemma PairStep(s: State, names: Directory, c: Call, a: int, b: int)
    requires FromAccount(names, c) && a != b
    ensures var r := OrNothing(Row(s, a, b));
            OrNothing(Row(Step(s, names, c).0, a, b)) ==
            if OnPair(names, c, a, b) then Told(c, r)
            else if OnPair(names, c, b, a) then Flipped(Told(c, Flipped(r)))
            else r
  {
    hide Step, Row, OnPair;
    RowFlips(s, a, b);
    RowFlips(Step(s, names, c).0, a, b);
    if OnPair(names, c, a, b) {
      CallersRow(s, names, c, a, b);
    } else if OnPair(names, c, b, a) {
      CallersRow(s, names, c, b, a);
    } else {
      OthersRow(s, names, c, a, b);
    }
  }

  lemma InvRow(s: State, names: Directory, a: int, b: int)
    requires Inv(s, names) && a != b
    ensures Row(s, a, b).Some? ==> RelOk(Row(s, a, b).value)
  {
  }

  lemma EmptyInv(names: Directory)
    ensures Inv(NEW_STATE, names)
  {
  }

  lemma NoRows(a: int, b: int)
    ensures Row(NEW_STATE, a, b).None?
  {
  }

  /** A call that is on a pair one way round is not on it the other way, and is a command. */
  lemma OnePairOnly(names: Directory, c: Call, a: int, b: int)
    ensures OnPair(names, c, a, b) ==> !OnPair(names, c, b, a) && !c.Login? && !c.Disconnect?
  {
  }

  /** After every run, a pair's row says exactly what its history says, and there is a row exactly when that
      is something. */
  lemma {:induction false} TableIsHistory(names: Directory, calls: seq<Call>, a: int, b: int)
    requires DirectoryOk(names) && AllFromAccounts(names, calls) && a != b
    ensures var row := Row(After(NEW_STATE, names, calls), a, b);
            && OrNothing(row) == Rel(StatusIn(names, calls, a, b), StatusIn(names, calls, b, a))
            && (row.Some? <==> StatusIn(names, calls, a, b) != NOTHING || StatusIn(names, calls, b, a) != NOTHING)
    decreases |calls|
  {
    hide Step, Row, OnPair, Inv;
    EmptyInv(names);
    RunKeeps(NEW_STATE, names, calls);
    var s := After(NEW_STATE, names, calls);
    InvRow(s, names, a, b);
    if calls == [] {
      assert Row(s, a, b).None? by {
        NoRows(a, b);
      }
    } else {
      var c, before := calls[|calls| - 1], calls[..|calls| - 1];
      assert c in calls;
      RunKeeps(NEW_STATE, names, before);
      TableIsHistory(names, before, a, b);
      var s0 := After(NEW_STATE, names, before);
      InvRow(s0, names, a, b);
      PairStep(s0, names, c, a, b);
      OnePairOnly(names, c, a, b);
    }
  }

  // ---------------------------------------------------------------------------------------------
  // Who is online, and what is answered, against the history

  /** A login under the account's own name. */
  predicate LogsIn(names: Directory, c: Call, u: int) {
    c.Login? && u in names.nameOf && c.npid == names.nameOf[u]
  }

  predicate LeavesLine(c: Call, u: int) {
    c.Disconnect? && c.user == u
  }

  /** The user has logged in and not disconnected since. */
  ghost predicate OnlineIn(names: Directory, calls: seq<Call>, u: int) {
    exists i :: 0 <= i < |calls| && LogsIn(names, calls[i], u) &&
      forall j :: i < j < |calls| ==> !LeavesLine(calls[j], u)
  }

  /** One more call: a login or a disconnection of that user decides, any other leaves it as it was. */
  lemma OnlineStep(names: Directory, before: seq<Call>, c: Call, u: int)
    ensures OnlineIn(names, before + [c], u) <==>
            LogsIn(names, c, u) || (!LeavesLine(c, u) && OnlineIn(names, before, u))
  {
    var calls := before + [c];
    if LogsIn(names, c, u) {
      assert LogsIn(names, calls[|before|], u);
    }
    if !LeavesLine(c, u) && OnlineIn(names, before, u) {
      var i :| 0 <= i < |before| && LogsIn(names, before[i], u)
               && forall j :: i < j < |before| ==> !LeavesLine(before[j], u);
      assert LogsIn(names, calls[i], u);
    }
    if OnlineIn(names, calls, u) && !LogsIn(names, c, u) {
      var i :| 0 <= i < |calls| && LogsIn(names, calls[i], u)
               && forall j :: i < j < |calls| ==> !LeavesLine(calls[j], u);
      assert calls[|before|] == c;
      assert before[i] == calls[i] && forall j :: i < j < |before| ==> calls[j] == before[j];
    }
  }

  lemma OnlineAfterStep(s: State, names: Directory, c: Call, u: int)
    requires DirectoryOk(names) && FromAccount(names, c)
    ensures u in Step(s, names, c).0.online <==> LogsIn(names, c, u) || (!LeavesLine(c, u) && u in s.online)
  {
    hide Row, Ordered;
    if c.Login? && LogsIn(names, c, u) {
      assert names.idOf(c.npid) == Some(u);
    }
  }

  /** After every run the users online are exactly those whose history says so. */
  lemma {:induction false} OnlineIsHistory(names: Directory, calls: seq<Call>, u: int)
    requires DirectoryOk(names) && AllFromAccounts(names, calls)
    ensures u in After(NEW_STATE, names, calls).online <==> OnlineIn(names, calls, u)
    decreases |calls|
  {
    hide Step, OnlineIn, LogsIn;
    if calls == [] {
      NobodyOnline(names, u);
    } else {
      var c, before := calls[|calls| - 1], calls[..|calls| - 1];
      assert c in calls && before + [c] == calls;
      OnlineIsHistory(names, before, u);
      OnlineStep(names, before, c, u);
      OnlineAfterStep(After(NEW_STATE, names, before), names, c, u);
    }
  }

  lemma NobodyOnline(names: Directory, u: int)
    ensures !OnlineIn(names, [], u)
  {
  }

  /** What a login after any run answers: it succeeds exactly under the own name of an account that is not
      online, and is told of the other login exactly when the account is. */
  lemma LoginAnswers(names: Directory, calls: seq<Call>, npid: string)
    requires DirectoryOk(names) && AllFromAccounts(names, calls)
    ensures var answer := Step(After(NEW_STATE, names, calls), names, Login(npid)).1;
      && (answer == NoError <==> exists u :: LogsIn(names, Login(npid), u) && !OnlineIn(names, calls, u))
      && (answer == AlreadyLoggedIn <==> exists u :: LogsIn(names, Login(npid), u) && OnlineIn(names, calls, u))
      && (answer == InvalidLogin <==> forall u :: !LogsIn(names, Login(npid), u))
  {
    hide After, OnlineIn;
    forall u | LogsIn(names, Login(npid), u)
      ensures names.idOf(npid) == Some(u)
      ensures u in After(NEW_STATE, names, calls).online <==> OnlineIn(names, calls, u)
    {
      OnlineIsHistory(names, calls, u);
    }
    var id := names.idOf(npid);
    if id.Some? && names.nameOf[id.value] == npid {
      assert LogsIn(names, Login(npid), id.value);
    }
  }

  /** A login that succeeds lists the user's friends under their own names, and the user under its own name with each
      of them who is online; nobody else's list changes, and no row does. */
  lemma LoginEnters(s: State, names: Directory, npid: string, u: int)
    requires DirectoryOk(names) && LogsIn(names, Login(npid), u) && u !in s.online
    ensures var (next, answer) := Step(s, names, Login(npid));
      && answer == NoError && next.rows == s.rows && next.online.Keys == s.online.Keys + {u}
      && (forall v :: v in next.online[u] <==> v in names.nameOf && Mutual(s, u, v))
      && (forall v :: v in next.online[u] ==> next.online[u][v] == names.nameOf[v])
      && forall f :: f in s.online ==>
           next.online[f] ==
             if f in names.nameOf && Mutual(s, u, f) then s.online[f][u := names.nameOf[u]] else s.online[f]
  {
    hide Row;
    assert names.idOf(npid) == Some(u);
  }

  /** What the four commands answer after any run, read off the calls made before: first the name, then the
      history of the pair. */
  lemma FriendAnswers(names: Directory, calls: seq<Call>, c: Call)
    requires DirectoryOk(names) && AllFromAccounts(names, calls) && FromAccount(names, c)
    requires !c.Login? && !c.Disconnect?
    ensures var answer := Step(After(NEW_STATE, names, calls), names, c).1;
      var id, a := names.idOf(c.npid), c.user;
      if id.None? then answer == NotFound
      else if id.value == a then answer == InvalidInput
      else
        var b := id.value;
        match c
        case AddFriend(_, _) =>
          answer == if BlockedIn(names, calls, a, b) || BlockedIn(names, calls, b, a) then Blocked
                    else if AskedIn(names, calls, a, b) then AlreadyFriend else NoError
        case RemoveFriend(_, _) =>
          answer == if AskedIn(names, calls, a, b) || AskedIn(names, calls, b, a) then NoError else NotFound
        case AddBlock(_, _) => answer == NoError
        case _ => answer == if BlockedIn(names, calls, a, b) then NoError else NotFound
  {
    hide Row, After, BlockedIn, AskedIn;
    var id := names.idOf(c.npid);
    if id.Some? && id.value != c.user {
      TableIsHistory(names, calls, c.user, id.value);
    }
  }

  // ---------------------------------------------------------------------------------------------
  // The server's table and entries, changed in place

  type Listing = seq<(int, string)>

  datatype Relationships = Relationships(friends: Listing, sent: Listing, received: Listing, blocked: Listing)

  function FriendIds(s: State, names: Directory, user: int): set<int> {
    set v | v in names.nameOf && Mutual(s, user, v)
  }

  function SentIds(s: State, names: Directory, user: int): set<int> {
    set v | v in names.nameOf && Sent(s, user, v)
  }

  function ReceivedIds(s: State, names: Directory, user: int): set<int> {
    set v | v in names.nameOf && Received(s, user, v)
  }

  function BlockedIds(s: State, names: Directory, user: int): set<int> {
    set v | v in names.nameOf && Blocks(s, user, v)
  }

  /** A listing names exactly these accounts, each once and by its own name. */
  ghost predicate Lists(l: Listing, names: Directory, ids: set<int>) {
    && (forall v: int, n: string :: (v, n) in l <==> v in ids && v in names.nameOf && names.nameOf[v] == n)
    && (forall i, j :: 0 <= i < j < |l| ==> l[i].0 != l[j].0)
  }

  lemma ListsMore(l: Listing, names: Directory, ids: set<int>, seen: set<int>, v: int)
    requires Lists(l, names, ids * seen) && v !in seen && v in names.nameOf
    ensures Lists(if v in ids then l + [(v, names.nameOf[v])] else l, names, ids * (seen + {v}))
  {
    if v in ids {
      var m := l + [(v, names.nameOf[v])];
      forall u: int, n: string
        ensures (u, n) in m <==> u in ids * (seen + {v}) && u in names.nameOf && names.nameOf[u] == n
      {
        assert (u, n) in m <==> (u, n) in l || (u, n) == (v, names.nameOf[v]);
      }
      forall i | 0 <= i < |l| ensures l[i].0 != v {
        assert (l[i].0, l[i].1) in l;
      }
    } else {
      assert ids * (seen + {v}) == ids * seen;
    }
  }

  /** The four listings hold exactly the accounts in their relations to the user, each once. */
  ghost predicate AllListed(s: State, names: Directory, user: int, r: Relationships) {
    && Lists(r.friends, names, FriendIds(s, names, user))
    && Lists(r.sent, names, SentIds(s, names, user))
    && Lists(r.received, names, ReceivedIds(s, names, user))
    && Lists(r.blocked, names, BlockedIds(s, names, user))
  }

  /** So far as the accounts seen go. */
  ghost predicate Listed(s: State, names: Directory, user: int, seen: set<int>, r: Relationships) {
    && Lists(r.friends, names, FriendIds(s, names, user) * seen)
    && Lists(r.sent, names, SentIds(s, names, user) * seen)
    && Lists(r.received, names, ReceivedIds(s, names, user) * seen)
    && Lists(r.blocked, names, BlockedIds(s, names, user) * seen)
  }

  lemma NothingListed(s: State, names: Directory, user: int)
    ensures Listed(s, names, user, {}, Relationships([], [], [], []))
  {
  }

  /** One row files its account in the listings it belongs to. */
  function Filed(r: Relationships, pair: (int, string), rel: Rel): Relationships {
    var me, other := rel.caller, rel.other;
    Relationships(
      if me.friend && other.friend then r.friends + [pair] else r.friends,
      if me.friend && !other.friend then r.sent + [pair] else r.sent,
      if !me.friend && other.friend then r.received + [pair] else r.received,
      if me.blocked then r.blocked + [pair] else r.blocked)
  }

  lemma OneMoreListed(s: State, names: Directory, user: int, seen: set<int>, r: Relationships, v: int, rel: Rel)
    requires Listed(s, names, user, seen, r) && v !in seen && v in names.nameOf
    requires user != v && Row(s, user, v) == Some(rel)
    ensures Listed(s, names, user, seen + {v}, Filed(r, (v, names.nameOf[v]), rel))
  {
    hide Lists, Row;
    ListsMore(r.friends, names, FriendIds(s, names, user), seen, v);
    ListsMore(r.sent, names, SentIds(s, names, user), seen, v);
    ListsMore(r.received, names, ReceivedIds(s, names, user), seen, v);
    ListsMore(r.blocked, names, BlockedIds(s, names, user), seen, v);
  }

  lemma EveryoneListed(s: State, names: Directory, user: int, seen: set<int>, r: Relationships)
    requires Listed(s, names, user, seen, r)
    requires forall v :: v in seen <==> v != user && Ordered(user, v) in s.rows
    ensures AllListed(s, names, user, r)
  {
    hide Lists;
    assert FriendIds(s, names, user) * seen == FriendIds(s, names, user);
    assert SentIds(s, names, user) * seen == SentIds(s, names, user);
    assert ReceivedIds(s, names, user) * seen == ReceivedIds(s, names, user);
    assert BlockedIds(s, names, user) * seen == BlockedIds(s, names, user);
  }

  lemma ListingAsMap(l: Listing, s: State, names: Directory, user: int, entry: map<int, string>)
    requires Lists(l, names, FriendIds(s, names, user))
    requires forall v :: v in entry ==> (v, entry[v]) in l
    requires forall p :: p in l ==> p.0 in entry
    ensures entry == FriendsOf(s, names, user)
  {
    var friends := FriendsOf(s, names, user);
    forall v | v in friends ensures v in entry && entry[v] == friends[v] {
      assert (v, friends[v]) in l;
    }
    forall v | v in entry ensures v in friends {
      assert (v, entry[v]) in l;
    }
  }

  /** What one user's sent listing holds, another's received listing holds from the other end. */
  lemma ListingsMatch(s: State, names: Directory, a: int, b: int)
    requires a in names.nameOf && b in names.nameOf
    ensures b in SentIds(s, names, a) <==> a in ReceivedIds(s, names, b)
    ensures b in FriendIds(s, names, a) <==> a in FriendIds(s, names, b)
  {
    RelationsMatch(s, a, b);
  }

  class FriendServer {
    var rows: map<Pair, Rel>
    var online: Online
    const names: Directory

    function View(): State
      reads this
    {
      State(rows, online)
    }

    constructor (names: Directory)
      ensures this.names == names && View() == NEW_STATE
    {
      this.names := names;
      rows, online := map[], map[];
    }

    method GetRelStatus(callerId: int, otherId: int) returns (rel: Option<Rel>)
      requires callerId != otherId
      ensures rel == Row(View(), callerId, otherId)
    {
      var swapped := !(callerId < otherId);
      var key := if swapped then (otherId, callerId) else (callerId, otherId);
      if key !in rows {
        return None;
      }
      rel := Some(if swapped then Rel(rows[key].other, rows[key].caller) else rows[key]);
    }

    method SetRelStatus(callerId: int, otherId: int, statusCaller: Status, statusOther: Status)
      requires callerId != otherId
      modifies this`rows
      ensures View() == WithRow(old(View()), callerId, otherId, Rel(statusCaller, statusOther))
    {
      var swapped := !(callerId < otherId);
      var key := if swapped then (otherId, callerId) else (callerId, otherId);
      rows := rows[key := if swapped then Rel(statusOther, statusCaller) else Rel(statusCaller, statusOther)];
    }

    method DeleteRel(callerId: int, otherId: int)
      requires callerId != otherId
      modifies this`rows
      ensures View() == WithoutRow(old(View()), callerId, otherId)
    {
      var key := if callerId < otherId then (callerId, otherId) else (otherId, callerId);
      rows := rows - {key};
    }

    method InsertFriend(user: int, id: int, name: string)
      modifies this`online
      ensures online == Entered(old(online), user, id, name)
    {
      if user in online {
        online := online[user := online[user][id := name]];
      }
    }

    method EraseFriend(user: int, id: int)
      modifies this`online
      ensures online == Dropped(old(online), user, id)
    {
      if user in online {
        online := online[user := online[user] - {id}];
      }
    }

    method CmdAddFriend(user: int, npid: string) returns (result: Outcome)
      requires user in names.nameOf
      modifies this
      ensures (View(), result) == Step(old(View()), names, AddFriend(user, npid))
    {
      var id := names.idOf(npid);
      if id.None? {
        return NotFound;
      }
      var friendId := id.value;
      if friendId == user {
        return InvalidInput;
      }
      var rel := GetRelStatus(user, friendId);
      if rel.Some? {
        if rel.value.caller.blocked || rel.value.other.blocked {
          return Blocked;
        }
        if rel.value.caller.friend {
          return AlreadyFriend;
        }
      }
      var newCaller := if rel.Some? then rel.value.caller.(friend := true) else Status(true, false);
      var newOther := if rel.Some? then rel.value.other else NOTHING;
      SetRelStatus(user, friendId, newCaller, newOther);
      if newOther.friend {
        InsertFriend(user, friendId, npid);
        InsertFriend(friendId, user, names.nameOf[user]);
      }
      result := NoError;
    }

    method CmdRemoveFriend(user: int, npid: string) returns (result: Outcome)
      requires user in names.nameOf
      modifies this
      ensures (View(), result) == Step(old(View()), names, RemoveFriend(user, npid))
    {
      var id := names.idOf(npid);
      if id.None? {
        return NotFound;
      }
      var friendId := id.value;
      if friendId == user {
        return InvalidInput;
      }
      var rel := GetRelStatus(user, friendId);
      if rel.None? || (!rel.value.caller.friend && !rel.value.other.friend) {
        return NotFound;
      }
      var newCaller := rel.value.caller.(friend := false);
      var newOther := rel.value.other.(friend := false);
      if newCaller == NOTHING && newOther == NOTHING {
        DeleteRel(user, friendId);
      } else {
        SetRelStatus(user, friendId, newCaller, newOther);
      }
      EraseFriend(user, friendId);
      EraseFriend(friendId, user);
      result := NoError;
    }

    method CmdAddBlock(user: int, npid: string) returns (result: Outcome)
      requires user in names.nameOf
      modifies this
      ensures (View(), result) == Step(old(View()), names, AddBlock(user, npid))
    {
      var id := names.idOf(npid);
      if id.None? {
        return NotFound;
      }
      var targetId := id.value;
      if targetId == user {
        return InvalidInput;
      }
      var rel := GetRelStatus(user, targetId);
      var curCaller := if rel.Some? then rel.value.caller else NOTHING;
      var curOther := if rel.Some? then rel.value.other else NOTHING;
      var wasFriend := curCaller.friend && curOther.friend;
      SetRelStatus(user, targetId, curCaller.(blocked := true, friend := false), curOther.(friend := false));
      if wasFriend {
        EraseFriend(user, targetId);
        EraseFriend(targetId, user);
      }
      result := NoError;
    }

    method CmdRemoveBlock(user: int, npid: string) returns (result: Outcome)
      requires user in names.nameOf
      modifies this
      ensures (View(), result) == Step(old(View()), names, RemoveBlock(user, npid))
    {
      var id := names.idOf(npid);
      if id.None? {
        return NotFound;
      }
      var targetId := id.value;
      if targetId == user {
        return InvalidInput;
      }
      var rel := GetRelStatus(user, targetId);
      if rel.None? || !rel.value.caller.blocked {
        return NotFound;
      }
      var newCaller, newOther := rel.value.caller.(blocked := false), rel.value.other;
      if newCaller == NOTHING && newOther == NOTHING {
        DeleteRel(user, targetId);
      } else {
        SetRelStatus(user, targetId, newCaller, newOther);
      }
      result := NoError;
    }

    /** A pass over the rows that hold the user, in the order the table yields them. */
    method GetRelationships(userId: int) returns (result: Relationships)
      requires TableOk(View(), names)
      ensures AllListed(View(), names, userId, result)
    {
      hide Listed, FriendIds, SentIds, ReceivedIds, BlockedIds, Lists;
      result := Relationships([], [], [], []);
      var todo := rows.Keys;
      ghost var seen: set<int> := {};
      NothingListed(View(), names, userId);
      while todo != {}
        invariant todo <= rows.Keys
        invariant forall v :: v in seen <==> v != userId && Ordered(userId, v) in rows && Ordered(userId, v) !in todo
        invariant Listed(View(), names, userId, seen, result)
        decreases |todo|
      {
        var key :| key in todo;
        todo := todo - {key};
        if key.0 == userId || key.1 == userId {
          var otherId := if key.0 == userId then key.1 else key.0;
          var me := if key.0 == userId then rows[key].caller else rows[key].other;
          var other := if key.0 == userId then rows[key].other else rows[key].caller;
          assert Row(View(), userId, otherId) == Some(Rel(me, other));
          OneMoreListed(View(), names, userId, seen, result, otherId, Rel(me, other));
          seen := seen + {otherId};
          var pair := (otherId, names.nameOf[otherId]);
          if me.friend && other.friend {
            result := result.(friends := result.friends + [pair]);
          } else if me.friend && !other.friend {
            result := result.(sent := result.sent + [pair]);
          } else if !me.friend && other.friend {
            result := result.(received := result.received + [pair]);
          }
          if me.blocked {
            result := result.(blocked := result.blocked + [pair]);
          }
        }
      }
      EveryoneListed(View(), names, userId, seen, result);
    }

    /** The new entry takes the user's friends, and every friend online takes the user. */
    method EnterFriends(userId: int, npid: string, friends: Listing) returns (entry: map<int, string>)
      requires forall i, j :: 0 <= i < j < |friends| ==> friends[i].0 != friends[j].0
      modifies this`online
      ensures forall v :: v in entry ==> (v, entry[v]) in friends
      ensures forall p :: p in friends ==> p.0 in entry
      ensures online == Greeted(old(online), entry.Keys, userId, npid)
    {
      entry := map[];
      for i := 0 to |friends|
        invariant forall v :: v in entry ==> (v, entry[v]) in friends[..i]
        invariant forall p :: p in friends[..i] ==> p.0 in entry
        invariant online == Greeted(old(online), entry.Keys, userId, npid)
      {
        var f := friends[i];
        assert friends[..i + 1] == friends[..i] + [f];
        entry := entry[f.0 := f.1];
        InsertFriend(f.0, userId, npid);
      }
      assert friends[..|friends|] == friends;
    }

    method CmdLogin(npid: string) returns (result: Outcome, rels: Relationships)
      requires TableOk(View(), names)
      modifies this
      ensures (View(), result) == Step(old(View()), names, Login(npid))
      ensures result == NoError ==> AllListed(old(View()), names, names.idOf(npid).value, rels)
    {
      rels := Relationships([], [], [], []);
      var id := names.idOf(npid);
      if id.None? || id.value !in names.nameOf || names.nameOf[id.value] != npid {
        return InvalidLogin, rels;
      }
      var userId := id.value;
      if userId in online {
        return AlreadyLoggedIn, rels;
      }
      rels := GetRelationships(userId);
      var entry := EnterFriends(userId, npid, rels.friends);
      ListingAsMap(rels.friends, old(View()), names, userId, entry);
      online := online[userId := entry];
      result := NoError;
    }

    method Disconnected(userId: int)
      requires userId in names.nameOf
      modifies this`online
      ensures View() == Step(old(View()), names, Disconnect(userId)).0
    {
      online := online - {userId};
    }
  }
}
