/** Session Manager: sessions of many members, a member holding one of its own index slots in each. */
module Sessions {
  import opened Common

  datatype Member = Member(userId: int, npid: string, platform: string, index: int, priority: int, joinedAt: int)

  type Members = seq<Member>

  datatype Kind = OwnerBind | OwnerMigration

  datatype SessionState = SessionState(
    kind: Kind, ownerUserId: int, ownerNpid: string, privacy: string, maxUser: int, platforms: seq<string>,
    locked: bool, members: Members, createdAt: int)

  /** Sessions under their ids. Ids are fresh UUIDs in the source; here they are numbered. */
  datatype Store = Store(sessions: map<nat, SessionState>, issued: nat)

  const NEW_STORE := Store(map[], 0)

  const MAX_MEMBERS := 256

  // ---------------------------------------------------------------------------------------------
  // Members of one session

  predicate Has(members: Members, userId: int) {
    exists i :: 0 <= i < |members| && members[i].userId == userId
  }

  predicate HasAt(members: Members, userId: int, index: int) {
    exists i :: 0 <= i < |members| && members[i].userId == userId && members[i].index == index
  }

  ghost predicate DistinctUsers(members: Members) {
    forall i, j :: 0 <= i < j < |members| ==> members[i].userId != members[j].userId
  }

  /** The place of the user's first entry, from place i on; the length when there is none. */
  function Place(members: Members, userId: int, i: nat): (r: nat)
    requires i <= |members|
    ensures i <= r <= |members|
    ensures r < |members| ==> members[r].userId == userId
    ensures forall k :: i <= k < r ==> members[k].userId != userId
    decreases |members| - i
  {
    if i == |members| || members[i].userId == userId then i else Place(members, userId, i + 1)
  }

  function PlaceAt(members: Members, userId: int, index: int, i: nat): (r: nat)
    requires i <= |members|
    ensures i <= r <= |members|
    ensures r < |members| ==> members[r].userId == userId && members[r].index == index
    ensures forall k :: i <= k < r ==> members[k].userId != userId || members[k].index != index
    decreases |members| - i
  {
    if i == |members| || (members[i].userId == userId && members[i].index == index) then i
    else PlaceAt(members, userId, index, i + 1)
  }

  function RemoveAt(members: Members, i: nat): Members
    requires i < |members|
  {
    members[..i] + members[i + 1..]
  }

  /** The members without the user. */
  function Without(members: Members, userId: int): Members {
    var i := Place(members, userId, 0);
    if i < |members| then RemoveAt(members, i) else members
  }

  lemma RemovedElements(members: Members, p: nat)
    requires p < |members|
    ensures |RemoveAt(members, p)| == |members| - 1
    ensures forall k :: 0 <= k < p ==> RemoveAt(members, p)[k] == members[k]
    ensures forall k :: p <= k < |members| - 1 ==> RemoveAt(members, p)[k] == members[k + 1]
    ensures forall m :: m in RemoveAt(members, p) ==> m in members
    ensures forall m :: m in members && m != members[p] ==> m in RemoveAt(members, p)
  {
    assert members == members[..p] + [members[p]] + members[p + 1..];
  }

  /** Of distinct users, the one is gone and all others are left as they were, in their order. */
  lemma WithoutDrops(members: Members, userId: int)
    requires DistinctUsers(members)
    ensures var rest := Without(members, userId);
      && !Has(rest, userId) && DistinctUsers(rest)
      && |rest| == |members| - (if Has(members, userId) then 1 else 0)
      && (forall m :: m in rest <==> m in members && m.userId != userId)
  {
    hide RemoveAt;
    var p := Place(members, userId, 0);
    if p < |members| {
      RemovedElements(members, p);
      forall m | m in members && m.userId == userId
        ensures m == members[p]
      {
      }
    }
  }

  /** a stands before b in the list. */
  predicate Ahead(members: Members, a: int, b: int) {
    exists i, j :: 0 <= i < j < |members| && members[i].userId == a && members[j].userId == b
  }

  lemma WithoutKeepsOrder(members: Members, userId: int, a: int, b: int)
    requires a != userId && b != userId
    ensures Ahead(members, a, b) <==> Ahead(Without(members, userId), a, b)
  {
    var p := Place(members, userId, 0);
    if p < |members| {
      if Ahead(members, a, b) {
        RemovedKeepsAhead(members, p, a, b);
      }
      if Ahead(RemoveAt(members, p), a, b) {
        RemovedAddsNoAhead(members, p, a, b);
      }
    }
  }

  lemma RemovedKeepsAhead(members: Members, p: nat, a: int, b: int)
    requires p < |members| && members[p].userId != a && members[p].userId != b && Ahead(members, a, b)
    ensures Ahead(RemoveAt(members, p), a, b)
  {
    var i, j :| 0 <= i < j < |members| && members[i].userId == a && members[j].userId == b;
    var x, y := if i < p then i else i - 1, if j < p then j else j - 1;
    var rest := RemoveAt(members, p);
    assert rest[x] == members[i] && rest[y] == members[j];
  }

  lemma RemovedAddsNoAhead(members: Members, p: nat, a: int, b: int)
    requires p < |members| && Ahead(RemoveAt(members, p), a, b)
    ensures Ahead(members, a, b)
  {
    var rest := RemoveAt(members, p);
    var i, j :| 0 <= i < j < |rest| && rest[i].userId == a && rest[j].userId == b;
    var x, y := if i < p then i else i + 1, if j < p then j else j + 1;
    assert members[x] == rest[i] && members[y] == rest[j];
  }

  // ---------------------------------------------------------------------------------------------
  // Leaving one session

  /** What is left of a session when a member is gone: nothing when its owner leaves an owner-bind session
      or nobody remains; else it passes to the first remaining member if the owner left. */
  function OwnerRule(s: SessionState, userId: int, rest: Members): Option<SessionState> {
    var wasOwner := s.ownerUserId == userId;
    if (s.kind == OwnerBind && wasOwner) || rest == [] then None
    else if wasOwner then Some(s.(members := rest, ownerUserId := rest[0].userId, ownerNpid := rest[0].npid))
    else Some(s.(members := rest))
  }

  /** RemoveMemberApplyOwner: None when the session is to be deleted; nothing changes for a stranger. */
  function Removal(s: SessionState, userId: int): Option<SessionState> {
    if Has(s.members, userId) then OwnerRule(s, userId, Without(s.members, userId)) else Some(s)
  }

  // ---------------------------------------------------------------------------------------------
  // What every stored session keeps

  ghost predicate SessionOk(s: SessionState) {
    && 1 <= |s.members| <= MAX_MEMBERS
    && DistinctUsers(s.members)
    && exists i :: 0 <= i < |s.members| && s.members[i].userId == s.ownerUserId && s.members[i].npid == s.ownerNpid
  }

  /** No user holds the same index in two sessions. */
  ghost predicate IndicesFree(sessions: map<nat, SessionState>) {
    forall a, b, userId, index ::
      (a in sessions && b in sessions
       && HasAt(sessions[a].members, userId, index) && HasAt(sessions[b].members, userId, index)) ==> a == b
  }

  ghost predicate Inv(s: Store) {
    && (forall id :: id in s.sessions ==> id < s.issued && SessionOk(s.sessions[id]))
    && IndicesFree(s.sessions)
  }

  /** A session survives a member's leaving sound, unless the leaving ends it: exactly when the owner leaves
      an owner-bind session or the last member any session. */
  lemma RemovalKeepsOk(s: SessionState, userId: int)
    requires SessionOk(s)
    ensures Removal(s, userId).None? <==>
            Has(s.members, userId) && (|s.members| == 1 || (s.kind == OwnerBind && s.ownerUserId == userId))
    ensures Removal(s, userId).Some? ==>
              var next := Removal(s, userId).value;
              && SessionOk(next) && !Has(next.members, userId) && next.kind == s.kind
              && (forall m :: m in next.members <==> m in s.members && m.userId != userId)
              && (s.ownerUserId != userId ==> next.ownerUserId == s.ownerUserId)
  {
    WithoutDrops(s.members, userId);
    var rest := Without(s.members, userId);
    var o :| 0 <= o < |s.members| && s.members[o].userId == s.ownerUserId && s.members[o].npid == s.ownerNpid;
    if s.ownerUserId != userId && Has(s.members, userId) {
      assert s.members[o] in rest;
    }
  }

  /** In an owner-migration session the new owner stands ahead of everybody else who remains. */
  lemma HeirIsEarliest(s: SessionState, other: int)
    requires SessionOk(s) && s.kind == OwnerMigration && |s.members| > 1
    requires Has(s.members, other) && other != s.ownerUserId
    ensures Removal(s, s.ownerUserId).Some?
    ensures var heir := Removal(s, s.ownerUserId).value.ownerUserId;
      other == heir || Ahead(s.members, heir, other)
  {
    RemovalKeepsOk(s, s.ownerUserId);
    WithoutDrops(s.members, s.ownerUserId);
    var rest := Without(s.members, s.ownerUserId);
    var k :| 0 <= k < |s.members| && s.members[k].userId == other;
    assert s.members[k] in rest;
    var j :| 0 <= j < |rest| && rest[j] == s.members[k];
    assert rest[0] in s.members;
    if j > 0 {
      assert Ahead(rest, rest[0].userId, other);
      WithoutKeepsOrder(s.members, s.ownerUserId, rest[0].userId, other);
    }
  }

  // ---------------------------------------------------------------------------------------------
  // The handlers on values

  datatype Call =
    | Create(userId: int, npid: string, platform: Option<string>, kind: Kind, privacy: string, maxUser: int,
             platforms: seq<string>, locked: bool, index: int, priority: int, now: int)
    | Update(userId: int, id: nat, newPrivacy: Option<string>, newMaxUser: Option<int>, newLocked: Option<bool>,
             newPlatforms: seq<string>)
    | Delete(userId: int, id: nat)
    | Join(userId: int, npid: string, platform: Option<string>, id: nat, index: int, priority: int, now: int)
    | Leave(userId: int, id: nat, target: int)
    | Purge(userId: int)

  datatype Error = InvalidBodyParam | NotOnline | NotFound | OnlyCreator | OnlyMember | NotPermitted
    | AlreadyJoined | Full

  datatype Reply = Created(id: nat) | NoContent | Refused(error: Error)

  /** Who may update and delete: the creator of an owner-bind session, any member of the other kind. */
  function PermissionError(s: SessionState, userId: int): Option<Error> {
    if s.kind == OwnerBind then (if s.ownerUserId == userId then None else Some(OnlyCreator))
    else if Has(s.members, userId) then None
    else Some(OnlyMember)
  }

  function Put(s: Store, id: nat, session: Option<SessionState>): Store {
    s.(sessions := if session.Some? then s.sessions[id := session.value] else s.sessions - {id})
  }

  /** The session in which the user holds the index. */
  ghost function Holder(s: Store, userId: int, index: int): (r: Option<nat>)
    ensures r.Some? ==> r.value in s.sessions && HasAt(s.sessions[r.value].members, userId, index)
    ensures r.None? ==> forall id :: id in s.sessions ==> !HasAt(s.sessions[id].members, userId, index)
  {
    if id :| id in s.sessions && HasAt(s.sessions[id].members, userId, index) then Some(id) else None
  }

  /** LeaveSessionAtIndex */
  ghost function LeaveAt(s: Store, userId: int, index: int): Store {
    var holder := Holder(s, userId, index);
    if holder.None? then s
    else
      var session := s.sessions[holder.value];
      Put(s, holder.value, OwnerRule(session, userId,
        RemoveAt(session.members, FoundAt(session.members, userId, index))))
  }

  function FoundAt(members: Members, userId: int, index: int): (i: nat)
    requires HasAt(members, userId, index)
    ensures i < |members| && members[i].userId == userId && members[i].index == index
  {
    PlaceAt(members, userId, index, 0)
  }

  ghost function CreateStep(s: Store, c: Call): (Store, Reply)
    requires c.Create?
  {
    if c.maxUser <= 0 || c.platforms == [] then (s, Refused(InvalidBodyParam))
    else if c.platform.None? then (s, Refused(NotOnline))
    else if c.platform.value !in c.platforms then (s, Refused(InvalidBodyParam))
    else
      var freed := LeaveAt(s, c.userId, c.index);
      (Store(freed.sessions[s.issued := Opening(c)], s.issued + 1), Created(s.issued))
  }

  function Opening(c: Call): SessionState
    requires c.Create? && c.platform.Some?
  {
    SessionState(c.kind, c.userId, c.npid, if c.privacy == "" then "public" else c.privacy, c.maxUser, c.platforms,
                 c.locked, [Member(c.userId, c.npid, c.platform.value, c.index, c.priority, c.now)], c.now)
  }

  function Updated(s: SessionState, c: Call): SessionState
    requires c.Update?
  {
    s.(privacy := if c.newPrivacy.Some? then c.newPrivacy.value else s.privacy,
       maxUser := if c.newMaxUser.Some? then c.newMaxUser.value else s.maxUser,
       locked := if c.newLocked.Some? then c.newLocked.value else s.locked,
       platforms := if c.newPlatforms != [] then c.newPlatforms else s.platforms)
  }

  function Capacity(maxUser: int): int {
    if 0 < maxUser < MAX_MEMBERS then maxUser else MAX_MEMBERS
  }

  ghost function JoinStep(s: Store, c: Call): (Store, Reply)
    requires c.Join?
  {
    if !(0 <= c.index <= 63) then (s, Refused(InvalidBodyParam))
    else if c.platform.None? then (s, Refused(NotOnline))
    else if c.id !in s.sessions then (s, Refused(NotFound))
    else
      var session := s.sessions[c.id];
      var i := Place(session.members, c.userId, 0);
      if i < |session.members| then
        if session.members[i].index != c.index then (s, Refused(AlreadyJoined))
        else (Put(s, c.id, Some(session.(members :=
                session.members[i := session.members[i].(priority := c.priority, joinedAt := c.now)]))), NoContent)
      else if session.locked then (s, Refused(NotPermitted))
      else if |session.members| >= Capacity(session.maxUser) then (s, Refused(Full))
      else
        (Admitted(LeaveAt(s, c.userId, c.index), c), NoContent)
  }

  /** The newcomer goes to the end of the list. (A missing session would be made anew, empty but for it.) */
  ghost function Admitted(s: Store, c: Call): Store
    requires c.Join? && c.platform.Some?
  {
    if c.id in s.sessions then
      Put(s, c.id, Some(s.sessions[c.id].(members := s.sessions[c.id].members + [Newcomer(c)])))
    else s
  }

  function Newcomer(c: Call): Member
    requires c.Join? && c.platform.Some?
  {
    Member(c.userId, c.npid, c.platform.value, c.index, c.priority, c.now)
  }

  function LeaveStep(s: Store, c: Call): (Store, Reply)
    requires c.Leave?
  {
    if c.id !in s.sessions then (s, NoContent)
    else if c.target != c.userId && s.sessions[c.id].ownerUserId != c.userId then (s, Refused(NotPermitted))
    else (Put(s, c.id, Removal(s.sessions[c.id], c.target)), NoContent)
  }

  function Purged(s: Store, userId: int): Store {
    s.(sessions := map id | id in s.sessions && Removal(s.sessions[id], userId).Some?
                     :: Removal(s.sessions[id], userId).value)
  }

  ghost function Step(s: Store, c: Call): (Store, Reply) {
    if c.Create? then CreateStep(s, c)
    else if c.Join? then JoinStep(s, c)
    else if c.Leave? then LeaveStep(s, c)
    else if c.Purge? then (Purged(s, c.userId), NoContent)
    else if c.id !in s.sessions then (s, Refused(NotFound))
    else
      var error := PermissionError(s.sessions[c.id], c.userId);
      if error.Some? then (s, Refused(error.value))
      else if c.Delete? then (Put(s, c.id, None), NoContent)
      else (Put(s, c.id, Some(Updated(s.sessions[c.id], c))), NoContent)
  }

  ghost function After(s: Store, calls: seq<Call>): Store {
    if calls == [] then s else Step(After(s, calls[..|calls| - 1]), calls[|calls| - 1]).0
  }

  // ---------------------------------------------------------------------------------------------
  // Leaving by index is leaving by user

  lemma AloneAtIndex(members: Members, userId: int, index: int)
    requires DistinctUsers(members) && HasAt(members, userId, index)
    ensures Has(members, userId) && FoundAt(members, userId, index) == Place(members, userId, 0)
  {
  }

  /** LeaveSessionAtIndex does what RemoveMemberApplyOwner does to the one session that holds the index. */
  lemma LeaveAtIsRemoval(s: Store, userId: int, index: int)
    requires Inv(s)
    ensures var holder := Holder(s, userId, index);
      LeaveAt(s, userId, index) ==
        if holder.None? then s else Put(s, holder.value, Removal(s.sessions[holder.value], userId))
  {
    var holder := Holder(s, userId, index);
    if holder.Some? {
      AloneAtIndex(s.sessions[holder.value].members, userId, index);
    }
  }

  /** Seen from one session: it loses the user exactly if it held the index. */
  lemma LeaveAtEach(s: Store, userId: int, index: int, id: nat)
    requires Inv(s) && id in s.sessions
    ensures var next := LeaveAt(s, userId, index).sessions;
      && var left := if HasAt(s.sessions[id].members, userId, index) then Removal(s.sessions[id], userId)
                     else Some(s.sessions[id]);
      && (id in next <==> left.Some?) && (left.Some? ==> next[id] == left.value)
  {
    LeaveAtIsRemoval(s, userId, index);
    hide SessionOk, Removal, HasAt;
  }

  // ---------------------------------------------------------------------------------------------
  // One call, seen from one session

  /** The call brings its user into a session: the new one, or the one to join. */
  ghost predicate Enters(s: Store, c: Call) {
    || (c.Create? && Step(s, c).1.Created?)
    || (c.Join? && Step(s, c).1 == NoContent && c.id in s.sessions && !Has(s.sessions[c.id].members, c.userId))
  }

  ghost function Target(s: Store, c: Call): nat
    requires c.Create? || c.Join?
  {
    if c.Create? then s.issued else c.id
  }

  /** The call takes this user out of session `id`: a leaving, or an entering at an index held there. */
  ghost predicate TakesOut(s: Store, c: Call, id: nat, userId: int)
    requires id in s.sessions
  {
    && Has(s.sessions[id].members, userId)
    && (|| (c.Leave? && c.id == id && c.target == userId
              && (c.userId == userId || c.userId == s.sessions[id].ownerUserId))
        || (c.Purge? && c.userId == userId)
        || ((c.Create? || c.Join?) && Enters(s, c) && c.userId == userId
              && HasAt(s.sessions[id].members, userId, c.index)))
  }

  ghost predicate Deletes(s: Store, c: Call, id: nat)
    requires id in s.sessions
  {
    c.Delete? && c.id == id && PermissionError(s.sessions[id], c.userId).None?
  }

  /** The users and their indices in both lists are the same, place by place. */
  ghost predicate SameSeats(a: Members, b: Members) {
    |a| == |b| && forall i :: 0 <= i < |a| ==>
      a[i].userId == b[i].userId && a[i].npid == b[i].npid && a[i].index == b[i].index
  }

  /** Nobody leaves: the same owner and members, and the newcomer behind them if it is the session joined. */
  ghost predicate Stays(s: Store, c: Call, id: nat, next: SessionState)
    requires id in s.sessions
  {
    var was := s.sessions[id];
    && next.kind == was.kind && next.ownerUserId == was.ownerUserId && next.ownerNpid == was.ownerNpid
    && if c.Join? && Enters(s, c) && c.id == id then
         c.platform.Some? && next.members == was.members + [Newcomer(c)] && |was.members| < Capacity(was.maxUser)
       else SameSeats(was.members, next.members)
  }

  lemma EnteringFrees(s: Store, c: Call)
    requires Inv(s) && (c.Create? || c.Join?) && Enters(s, c)
    ensures var freed := LeaveAt(s, c.userId, c.index);
      && c.platform.Some?
      && (c.Create? ==> Step(s, c).0.sessions == freed.sessions[s.issued := Opening(c)])
      && (c.Join? ==> && c.id in freed.sessions && freed.sessions[c.id] == s.sessions[c.id]
                      && |s.sessions[c.id].members| < Capacity(s.sessions[c.id].maxUser)
                      && Step(s, c).0 == Admitted(freed, c))
  {
    if c.Join? {
      LeaveAtEach(s, c.userId, c.index, c.id);
    }
    hide LeaveAt, SessionOk;
  }

  /** What one call does to one session that is there: deleted, or left by the user the call takes out, or
      kept with all its members and its owner. */
  lemma SessionAfterStep(s: Store, c: Call, id: nat)
    requires Inv(s) && id in s.sessions
    ensures var next := Step(s, c).0.sessions;
      && (Deletes(s, c, id) ==> id !in next)
      && (forall userId | TakesOut(s, c, id, userId) ::
            var left := Removal(s.sessions[id], userId);
            (id in next <==> left.Some?) && (left.Some? ==> next[id] == left.value))
      && (!Deletes(s, c, id) && (forall userId :: !TakesOut(s, c, id, userId)) ==>
            id in next && Stays(s, c, id, next[id]))
  {
    hide SessionOk, IndicesFree, OwnerRule, Without, LeaveAt;
    if (c.Create? || c.Join?) && Enters(s, c) {
      EnteringFrees(s, c);
      LeaveAtEach(s, c.userId, c.index, id);
      assert TakesOut(s, c, id, c.userId) <==> HasAt(s.sessions[id].members, c.userId, c.index);
    } else if c.Purge? {
      assert TakesOut(s, c, id, c.userId) <==> Has(s.sessions[id].members, c.userId);
    } else if c.Leave? {
      assert TakesOut(s, c, id, c.target) <==>
             (Has(s.sessions[id].members, c.target) && c.id == id
              && (c.userId == c.target || c.userId == s.sessions[id].ownerUserId));
    }
  }

  /** A session that was not there has just been created. */
  lemma NewIsCreated(s: Store, c: Call, id: nat)
    requires Inv(s) && id in Step(s, c).0.sessions && id !in s.sessions
    ensures c.Create? && Enters(s, c) && id == s.issued && c.platform.Some?
    ensures Step(s, c).0.sessions[id] == Opening(c)
  {
    hide SessionOk, IndicesFree, OwnerRule, Without, Removal;
    if (c.Create? || c.Join?) && Enters(s, c) {
      EnteringFrees(s, c);
      LeaveAtIsRemoval(s, c.userId, c.index);
    }
    hide LeaveAt;
  }

  lemma StaysOk(s: Store, c: Call, id: nat, next: SessionState)
    requires id in s.sessions && SessionOk(s.sessions[id]) && Stays(s, c, id, next)
    ensures SessionOk(next)
  {
    var was := s.sessions[id];
    var o :| 0 <= o < |was.members| && was.members[o].userId == was.ownerUserId && was.members[o].npid == was.ownerNpid;
    assert next.members[o].userId == next.ownerUserId && next.members[o].npid == next.ownerNpid;
  }

  lemma StepKeepsSession(s: Store, c: Call, id: nat)
    requires Inv(s) && id in Step(s, c).0.sessions
    ensures SessionOk(Step(s, c).0.sessions[id])
  {
    hide Step, Removal, SessionOk, IndicesFree, Enters;
    if id !in s.sessions {
      NewIsCreated(s, c, id);
      OpeningOk(c);
    } else {
      SessionAfterStep(s, c, id);
      if userId :| TakesOut(s, c, id, userId) {
        RemovalKeepsOk(s.sessions[id], userId);
      } else {
        StaysOk(s, c, id, Step(s, c).0.sessions[id]);
      }
    }
  }

  lemma OpeningOk(c: Call)
    requires c.Create? && c.platform.Some?
    ensures SessionOk(Opening(c))
    ensures forall u, i :: HasAt(Opening(c).members, u, i) ==> u == c.userId && i == c.index
  {
    assert Opening(c).members[0].userId == c.userId;
  }

  /** Whoever holds an index after a call has just entered there, or held it before in the same session;
      and nobody else holds the index that was entered at. */
  lemma HeldBefore(s: Store, c: Call, id: nat, userId: int, index: int)
    requires Inv(s) && id in Step(s, c).0.sessions && HasAt(Step(s, c).0.sessions[id].members, userId, index)
    ensures ((c.Create? || c.Join?) && Enters(s, c) && c.userId == userId && c.index == index) ==> id == Target(s, c)
    ensures !((c.Create? || c.Join?) && Enters(s, c) && c.userId == userId && c.index == index) ==>
              id in s.sessions && HasAt(s.sessions[id].members, userId, index)
  {
    hide Step, Removal, SessionOk, IndicesFree, Enters;
    if id !in s.sessions {
      NewIsCreated(s, c, id);
      OpeningOk(c);
    } else {
      SessionAfterStep(s, c, id);
      if (c.Create? || c.Join?) && Enters(s, c) && c.userId == userId
         && HasAt(s.sessions[id].members, userId, c.index) {
        assert TakesOut(s, c, id, userId);
      }
      if u :| TakesOut(s, c, id, u) {
        RemovalKeepsOk(s.sessions[id], u);
        RemovalHolds(s.sessions[id], u, userId, index);
      } else {
        StaysHolds(s, c, id, Step(s, c).0.sessions[id], userId, index);
      }
    }
  }

  lemma RemovalHolds(s: SessionState, gone: int, userId: int, index: int)
    requires SessionOk(s) && Removal(s, gone).Some? && HasAt(Removal(s, gone).value.members, userId, index)
    ensures HasAt(s.members, userId, index) && userId != gone
  {
    RemovalKeepsOk(s, gone);
    hide Removal;
    var next := Removal(s, gone).value.members;
    var i :| 0 <= i < |next| && next[i].userId == userId && next[i].index == index;
    assert next[i] in s.members;
  }

  lemma StaysHolds(s: Store, c: Call, id: nat, next: SessionState, userId: int, index: int)
    requires id in s.sessions && Stays(s, c, id, next) && HasAt(next.members, userId, index)
    ensures HasAt(s.sessions[id].members, userId, index)
            || (c.Join? && Enters(s, c) && c.id == id && c.userId == userId && c.index == index)
  {
    var was := s.sessions[id].members;
    var i :| 0 <= i < |next.members| && next.members[i].userId == userId && next.members[i].index == index;
    if i < |was| {
      assert was[i].userId == userId && was[i].index == index;
    }
  }

  /** Every handler keeps the store sound: sessions of 1 to 256 distinct members with their owner among
      them, and no user at one index in two sessions. */
  lemma StepKeepsInv(s: Store, c: Call)
    requires Inv(s)
    ensures Inv(Step(s, c).0)
  {
    hide Step, SessionOk, Enters;
    var next := Step(s, c).0;
    forall id | id in next.sessions
      ensures id < next.issued && SessionOk(next.sessions[id])
    {
      StepKeepsSession(s, c, id);
      IssuedGrows(s, c, id);
    }
    forall a, b, userId, index | a in next.sessions && b in next.sessions
      && HasAt(next.sessions[a].members, userId, index) && HasAt(next.sessions[b].members, userId, index)
      ensures a == b
    {
      HeldBefore(s, c, a, userId, index);
      HeldBefore(s, c, b, userId, index);
    }
  }

  lemma IssuedGrows(s: Store, c: Call, id: nat)
    requires Inv(s) && id in Step(s, c).0.sessions
    ensures s.issued <= Step(s, c).0.issued && id < Step(s, c).0.issued
  {
    hide SessionOk, IndicesFree, OwnerRule, Without, Removal;
    if id !in s.sessions {
      NewIsCreated(s, c, id);
    }
    hide LeaveAt;
  }

  lemma {:induction false} RunKeepsInv(calls: seq<Call>)
    ensures Inv(After(NEW_STORE, calls))
  {
    if calls != [] {
      RunKeepsInv(calls[..|calls| - 1]);
      StepKeepsInv(After(NEW_STORE, calls[..|calls| - 1]), calls[|calls| - 1]);
    }
  }

  // ---------------------------------------------------------------------------------------------
  // Entering and owning

  /** An entering never ends the session entered: the user is behind all its members there, and holds the
      index nowhere else. */
  lemma EnteringHolds(s: Store, c: Call)
    requires Inv(s) && (c.Create? || c.Join?) && Enters(s, c)
    ensures var next := Step(s, c).0.sessions;
      var id := Target(s, c);
      && id in next && HasAt(next[id].members, c.userId, c.index)
      && (forall other :: other in next && HasAt(next[other].members, c.userId, c.index) ==> other == id)
      && (c.Join? ==> c.platform.Some? && next[id].members == s.sessions[id].members + [Newcomer(c)]
                      && next[id].ownerUserId == s.sessions[id].ownerUserId)
  {
    hide SessionOk, Removal;
    var next := Step(s, c).0.sessions;
    var id := Target(s, c);
    EnteringFrees(s, c);
    if c.Create? {
      assert next[id].members[0].userId == c.userId && next[id].members[0].index == c.index;
    } else {
      var members := next[id].members;
      assert members[|members| - 1] == Newcomer(c);
    }
    hide Step, Enters;
    forall other | other in next && HasAt(next[other].members, c.userId, c.index)
      ensures other == id
    {
      HeldBefore(s, c, other, c.userId, c.index);
    }
  }

  /** A session changes owner in one call only when the call takes its owner out of an owner-migration
      session; everyone else who remains then stood behind the new owner. */
  lemma OwnerChanges(s: Store, c: Call, id: nat)
    requires Inv(s) && id in s.sessions && id in Step(s, c).0.sessions
    requires Step(s, c).0.sessions[id].ownerUserId != s.sessions[id].ownerUserId
    ensures var was := s.sessions[id];
      var heir := Step(s, c).0.sessions[id].ownerUserId;
      && was.kind == OwnerMigration && TakesOut(s, c, id, was.ownerUserId)
      && forall other :: Has(was.members, other) && other != was.ownerUserId && other != heir ==>
           Ahead(was.members, heir, other)
  {
    hide Step, SessionOk, IndicesFree, Enters, OwnerRule, Without;
    var was := s.sessions[id];
    SessionAfterStep(s, c, id);
    var userId :| TakesOut(s, c, id, userId);
    RemovalKeepsOk(was, userId);
    var heir := Step(s, c).0.sessions[id].ownerUserId;
    forall other | Has(was.members, other) && other != was.ownerUserId && other != heir
      ensures Ahead(was.members, heir, other)
    {
      HeirIsEarliest(was, other);
    }
  }

  /** Nobody overtakes: the standing of two users who stay in a session is fixed by who came first. */
  lemma StandingKept(s: Store, c: Call, id: nat, a: int, b: int)
    requires Inv(s) && id in s.sessions && id in Step(s, c).0.sessions
    requires Ahead(s.sessions[id].members, a, b)
    requires Has(Step(s, c).0.sessions[id].members, a) && Has(Step(s, c).0.sessions[id].members, b)
    ensures Ahead(Step(s, c).0.sessions[id].members, a, b)
  {
    hide Step, SessionOk, IndicesFree, Enters;
    var was, next := s.sessions[id], Step(s, c).0.sessions[id];
    SessionAfterStep(s, c, id);
    if userId :| TakesOut(s, c, id, userId) {
      RemovalKeepsOk(was, userId);
      WithoutKeepsOrder(was.members, userId, a, b);
    } else {
      var i, j :| 0 <= i < j < |was.members| && was.members[i].userId == a && was.members[j].userId == b;
      assert next.members[i].userId == a && next.members[j].userId == b;
    }
  }

  // ---------------------------------------------------------------------------------------------
  // The member list against the history: who entered when

  /** The call brings this user into this session. */
  ghost predicate BringsIn(s: Store, c: Call, id: nat, userId: int) {
    (c.Create? || c.Join?) && Enters(s, c) && Target(s, c) == id && c.userId == userId
  }

  /** The last step of a run from the empty store at which the user entered the session; -1 for never. A
      repeated join is no entering. */
  ghost function EnteredAt(calls: seq<Call>, id: nat, userId: int): (step: int)
    ensures -1 <= step < |calls|
  {
    if calls == [] then -1
    else
      var before := calls[..|calls| - 1];
      if BringsIn(After(NEW_STORE, before), calls[|calls| - 1], id, userId) then |calls| - 1
      else EnteredAt(before, id, userId)
  }

  /** All these members have entered, each after the one in front. */
  ghost predicate InEntryOrder(calls: seq<Call>, id: nat, members: Members) {
    && (forall i :: 0 <= i < |members| ==> EnteredAt(calls, id, members[i].userId) >= 0)
    && (forall i, j :: 0 <= i < j < |members| ==>
          EnteredAt(calls, id, members[i].userId) < EnteredAt(calls, id, members[j].userId))
  }

  lemma RemovalKeepsEntryOrder(calls: seq<Call>, id: nat, s: SessionState, userId: int)
    requires InEntryOrder(calls, id, s.members) && Removal(s, userId).Some?
    ensures InEntryOrder(calls, id, Removal(s, userId).value.members)
  {
    hide EnteredAt, RemoveAt;
    var p := Place(s.members, userId, 0);
    if p < |s.members| {
      RemovedElements(s.members, p);
    }
  }

  /** A call that brings nobody new into a stored session leaves its entry steps as they were. */
  lemma SameEntries(calls: seq<Call>, id: nat, userId: int)
    requires calls != []
    requires !BringsIn(After(NEW_STORE, calls[..|calls| - 1]), calls[|calls| - 1], id, userId)
    ensures EnteredAt(calls, id, userId) == EnteredAt(calls[..|calls| - 1], id, userId)
  {
  }

  lemma TakenOutBringsNobody(s: Store, c: Call, id: nat, gone: int, userId: int)
    requires Inv(s) && id in s.sessions && TakesOut(s, c, id, gone)
    ensures !BringsIn(s, c, id, userId)
  {
  }

  lemma StaysInEntryOrder(calls: seq<Call>, id: nat, next: SessionState)
    requires calls != []
    requires var s, c := After(NEW_STORE, calls[..|calls| - 1]), calls[|calls| - 1];
      && Inv(s) && id in s.sessions && Stays(s, c, id, next)
      && InEntryOrder(calls[..|calls| - 1], id, s.sessions[id].members)
    ensures InEntryOrder(calls, id, next.members)
  {
    hide EnteredAt, After, Inv;
    var before, c := calls[..|calls| - 1], calls[|calls| - 1];
    var s := After(NEW_STORE, before);
    var was := s.sessions[id].members;
    forall i | 0 <= i < |was|
      ensures EnteredAt(calls, id, next.members[i].userId) == EnteredAt(before, id, was[i].userId)
      ensures 0 <= EnteredAt(before, id, was[i].userId) < |calls| - 1
    {
      NoneReenters(s, c, id, was[i].userId);
      SameEntries(calls, id, was[i].userId);
    }
    if c.Join? && Enters(s, c) && c.id == id {
      NewcomerEnters(calls, id);
    }
  }

  lemma NoneReenters(s: Store, c: Call, id: nat, userId: int)
    requires Inv(s) && id in s.sessions && Has(s.sessions[id].members, userId)
    ensures !BringsIn(s, c, id, userId)
  {
  }

  lemma NewcomerEnters(calls: seq<Call>, id: nat)
    requires calls != []
    requires var s, c := After(NEW_STORE, calls[..|calls| - 1]), calls[|calls| - 1];
      (c.Create? || c.Join?) && Enters(s, c) && Target(s, c) == id
    ensures EnteredAt(calls, id, calls[|calls| - 1].userId) == |calls| - 1
  {
  }

  /** Over every run the members of a session stand in the order in which they entered it. */
  lemma {:induction false} MembersInEntryOrder(calls: seq<Call>, id: nat)
    requires id in After(NEW_STORE, calls).sessions
    ensures InEntryOrder(calls, id, After(NEW_STORE, calls).sessions[id].members)
    decreases |calls|
  {
    hide EnteredAt, Step, Inv, Enters, InEntryOrder;
    if calls != [] {
      var before, c := calls[..|calls| - 1], calls[|calls| - 1];
      var s := After(NEW_STORE, before);
      var next := After(NEW_STORE, calls).sessions[id];
      RunKeepsInv(before);
      if id in s.sessions {
        MembersInEntryOrder(before, id);
        OldStaysInEntryOrder(calls, id);
      } else {
        NewIsCreated(s, c, id);
        NewcomerEnters(calls, id);
        OpeningInOrder(calls, id, c);
      }
    }
  }

  lemma OpeningInOrder(calls: seq<Call>, id: nat, c: Call)
    requires c.Create? && c.platform.Some? && EnteredAt(calls, id, c.userId) >= 0
    ensures InEntryOrder(calls, id, Opening(c).members)
  {
    hide EnteredAt;
  }

  lemma OldStaysInEntryOrder(calls: seq<Call>, id: nat)
    requires calls != []
    requires var s := After(NEW_STORE, calls[..|calls| - 1]);
      && Inv(s) && id in s.sessions && InEntryOrder(calls[..|calls| - 1], id, s.sessions[id].members)
    requires id in After(NEW_STORE, calls).sessions
    ensures InEntryOrder(calls, id, After(NEW_STORE, calls).sessions[id].members)
  {
    hide EnteredAt, Step, Inv, Enters, InEntryOrder, Removal;
    var before, c := calls[..|calls| - 1], calls[|calls| - 1];
    var s := After(NEW_STORE, before);
    var next := After(NEW_STORE, calls).sessions[id];
    SessionAfterStep(s, c, id);
    if gone :| TakesOut(s, c, id, gone) {
      RemovalKeepsEntryOrder(before, id, s.sessions[id], gone);
      forall userId
        ensures EnteredAt(calls, id, userId) == EnteredAt(before, id, userId)
      {
        TakenOutBringsNobody(s, c, id, gone, userId);
        SameEntries(calls, id, userId);
      }
      SameOrder(before, calls, id, next.members);
    } else {
      StaysInEntryOrder(calls, id, next);
    }
  }

  lemma SameOrder(before: seq<Call>, calls: seq<Call>, id: nat, members: Members)
    requires InEntryOrder(before, id, members)
    requires forall userId :: EnteredAt(calls, id, userId) == EnteredAt(before, id, userId)
    ensures InEntryOrder(calls, id, members)
  {
    hide EnteredAt;
  }

  /** Over every run: a session passes to another owner only when the owner of an owner-migration session is
      taken out, and then to the member who entered before everybody else who remains. */
  lemma HeirEnteredFirst(calls: seq<Call>, c: Call, id: nat)
    requires var s := After(NEW_STORE, calls);
      && id in s.sessions && id in Step(s, c).0.sessions
      && Step(s, c).0.sessions[id].ownerUserId != s.sessions[id].ownerUserId
    ensures var s := After(NEW_STORE, calls);
      var next := Step(s, c).0.sessions[id];
      && s.sessions[id].kind == OwnerMigration && TakesOut(s, c, id, s.sessions[id].ownerUserId)
      && Has(next.members, next.ownerUserId)
      && forall m :: m in next.members && m.userId != next.ownerUserId ==>
           0 <= EnteredAt(calls, id, next.ownerUserId) < EnteredAt(calls, id, m.userId)
  {
    hide After, Step, Enters, EnteredAt, SessionOk, IndicesFree, Removal;
    RunKeepsInv(calls);
    var s := After(NEW_STORE, calls);
    var was, next := s.sessions[id], Step(s, c).0.sessions[id];
    MembersInEntryOrder(calls, id);
    OwnerChanges(s, c, id);
    StepKeepsSession(s, c, id);
    OwnerIsMember(next);
    TakenOut(s, c, id, was.ownerUserId);
    forall m | m in next.members && m.userId != next.ownerUserId
      ensures 0 <= EnteredAt(calls, id, next.ownerUserId) < EnteredAt(calls, id, m.userId)
    {
      MemberIsThere(was.members, m);
      AheadEnteredFirst(calls, id, was.members, next.ownerUserId, m.userId);
    }
  }

  lemma MemberIsThere(members: Members, m: Member)
    requires m in members
    ensures Has(members, m.userId)
  {
  }

  lemma AheadEnteredFirst(calls: seq<Call>, id: nat, members: Members, a: int, b: int)
    requires InEntryOrder(calls, id, members) && Ahead(members, a, b)
    ensures 0 <= EnteredAt(calls, id, a) < EnteredAt(calls, id, b)
  {
    hide EnteredAt;
  }

  /** An owner-bind session keeps its creator as owner and member to its end, whatever calls follow; and
      once gone it never comes back. */
  ghost predicate Bound(s: Store, id: nat, creator: int) {
    && id < s.issued
    && (id in s.sessions ==> s.sessions[id].kind == OwnerBind && s.sessions[id].ownerUserId == creator
                             && Has(s.sessions[id].members, creator))
  }

  lemma StepKeepsBound(s: Store, c: Call, id: nat, creator: int)
    requires Inv(s) && Bound(s, id, creator)
    ensures Bound(Step(s, c).0, id, creator)
  {
    hide Step, SessionOk, IndicesFree, Enters;
    IssuedNeverFalls(s, c);
    if id in Step(s, c).0.sessions {
      if id !in s.sessions {
        NewIsCreated(s, c, id);
        assert false;
      }
      SessionAfterStep(s, c, id);
      StepKeepsSession(s, c, id);
      KindKept(s, c, id);
      if Step(s, c).0.sessions[id].ownerUserId != creator {
        OwnerChanges(s, c, id);
      }
      OwnerIsMember(Step(s, c).0.sessions[id]);
    }
  }

  lemma OwnerIsMember(s: SessionState)
    requires SessionOk(s)
    ensures Has(s.members, s.ownerUserId)
  {
  }

  lemma IssuedNeverFalls(s: Store, c: Call)
    ensures s.issued <= Step(s, c).0.issued
  {
  }

  lemma KindKept(s: Store, c: Call, id: nat)
    requires Inv(s) && id in s.sessions && id in Step(s, c).0.sessions
    ensures Step(s, c).0.sessions[id].kind == s.sessions[id].kind
  {
    hide Step, SessionOk, IndicesFree, Enters;
    SessionAfterStep(s, c, id);
    if userId :| TakesOut(s, c, id, userId) {
      RemovalKeepsOk(s.sessions[id], userId);
    }
  }

  lemma {:induction false} OwnerBindKeepsCreator(s: Store, c: Call, calls: seq<Call>)
    requires Inv(s) && c.Create? && c.kind == OwnerBind && Enters(s, c)
    ensures Inv(After(Step(s, c).0, calls)) && Bound(After(Step(s, c).0, calls), s.issued, c.userId)
    decreases |calls|
  {
    hide Step, Inv, Bound;
    if calls == [] {
      StepKeepsInv(s, c);
      CreatedIsBound(s, c);
    } else {
      var earlier, last := calls[..|calls| - 1], calls[|calls| - 1];
      OwnerBindKeepsCreator(s, c, earlier);
      StepKeepsInv(After(Step(s, c).0, earlier), last);
      StepKeepsBound(After(Step(s, c).0, earlier), last, s.issued, c.userId);
    }
  }

  lemma CreatedIsBound(s: Store, c: Call)
    requires Inv(s) && c.Create? && c.kind == OwnerBind && Enters(s, c)
    ensures Bound(Step(s, c).0, s.issued, c.userId)
  {
    EnteringFrees(s, c);
    assert Opening(c).members[0].userId == c.userId;
  }

  /** A session ends exactly when it is deleted by leave of its rule, when its last member is taken out, or
      when its owner is taken out of an owner-bind session. */
  lemma SessionEnds(s: Store, c: Call, id: nat)
    requires Inv(s) && id in s.sessions
    ensures id !in Step(s, c).0.sessions <==>
            (Deletes(s, c, id)
             || exists userId :: TakesOut(s, c, id, userId)
                  && (|s.sessions[id].members| == 1
                      || (s.sessions[id].kind == OwnerBind && s.sessions[id].ownerUserId == userId)))
  {
    hide Step, SessionOk, IndicesFree, Enters, OwnerRule, Without, Removal;
    SessionAfterStep(s, c, id);
    forall userId | TakesOut(s, c, id, userId)
      ensures Removal(s.sessions[id], userId).None? <==>
              (|| |s.sessions[id].members| == 1
               || (s.sessions[id].kind == OwnerBind && s.sessions[id].ownerUserId == userId))
    {
      RemovalKeepsOk(s.sessions[id], userId);
    }
  }

  /** A user who is taken out is gone from that session, and nobody else is. */
  lemma TakenOut(s: Store, c: Call, id: nat, userId: int)
    requires Inv(s) && id in s.sessions && TakesOut(s, c, id, userId) && id in Step(s, c).0.sessions
    ensures forall m :: m in Step(s, c).0.sessions[id].members <==> m in s.sessions[id].members && m.userId != userId
  {
    hide Step, SessionOk, IndicesFree, Enters, OwnerRule, Without, Removal;
    SessionAfterStep(s, c, id);
    RemovalKeepsOk(s.sessions[id], userId);
  }

  // ---------------------------------------------------------------------------------------------
  // The session objects

  class Session {
    var kind: Kind
    var ownerUserId: int
    var ownerNpid: string
    var privacy: string
    var maxUser: int
    var platforms: seq<string>
    var locked: bool
    var members: Members
    var createdAt: int

    ghost function State(): SessionState
      reads this
    {
      SessionState(kind, ownerUserId, ownerNpid, privacy, maxUser, platforms, locked, members, createdAt)
    }

    constructor (s: SessionState)
      ensures State() == s
    {
      kind, ownerUserId, ownerNpid, privacy := s.kind, s.ownerUserId, s.ownerNpid, s.privacy;
      maxUser, platforms, locked, members, createdAt := s.maxUser, s.platforms, s.locked, s.members, s.createdAt;
    }

    lemma Shown()
      ensures var s := State();
        && s.kind == kind && s.ownerUserId == ownerUserId && s.members == members && s.locked == locked
        && s.maxUser == maxUser
    {
    }

    /** The place of the user, or of the user at an index, by a walk along the list. */
    method Find(userId: int) returns (i: nat)
      ensures i == Place(members, userId, 0)
      ensures i < |members| <==> Has(members, userId)
    {
      i := 0;
      while i < |members| && members[i].userId != userId
        invariant i <= |members|
        invariant Place(members, userId, 0) == Place(members, userId, i)
      {
        i := i + 1;
      }
    }

    method FindAt(userId: int, index: int) returns (i: nat)
      ensures i == PlaceAt(members, userId, index, 0)
      ensures i < |members| <==> HasAt(members, userId, index)
    {
      i := 0;
      while i < |members| && (members[i].userId != userId || members[i].index != index)
        invariant i <= |members|
        invariant PlaceAt(members, userId, index, 0) == PlaceAt(members, userId, index, i)
      {
        i := i + 1;
      }
    }

    /** The member at place i goes; true when the session is to be deleted. */
    method Take(userId: int, i: nat) returns (orphaned: bool)
      requires i < |members|
      modifies this`members, this`ownerUserId, this`ownerNpid
      ensures var next := OwnerRule(old(State()), userId, RemoveAt(old(members), i));
        orphaned == next.None? && (next.Some? ==> State() == next.value)
    {
      hide RemoveAt;
      var wasOwner := ownerUserId == userId;
      members := RemoveAt(members, i);
      if (kind == OwnerBind && wasOwner) || members == [] {
        return true;
      }
      if wasOwner {
        ownerUserId, ownerNpid := members[0].userId, members[0].npid;
      }
      orphaned := false;
    }

    method RemoveMemberApplyOwner(userId: int) returns (orphaned: bool, removed: bool)
      modifies this`members, this`ownerUserId, this`ownerNpid
      ensures removed == Has(old(members), userId)
      ensures orphaned == Removal(old(State()), userId).None?
      ensures !orphaned ==> State() == Removal(old(State()), userId).value
    {
      hide OwnerRule, Has;
      var i := Find(userId);
      removed := i < |members|;
      orphaned := false;
      if removed {
        orphaned := Take(userId, i);
      }
    }

    method Rejoin(i: nat, priority: int, now: int)
      requires i < |members|
      modifies this`members
      ensures State() == old(State()).(members :=
        old(members)[i := old(members)[i].(priority := priority, joinedAt := now)])
    {
      members := members[i := members[i].(priority := priority, joinedAt := now)];
    }

    method Append(m: Member)
      modifies this`members
      ensures State() == old(State()).(members := old(members) + [m])
    {
      members := members + [m];
    }

    method Update(c: Call)
      requires c.Update?
      modifies this`privacy, this`maxUser, this`locked, this`platforms
      ensures State() == Updated(old(State()), c)
    {
      if c.newPrivacy.Some? {
        privacy := c.newPrivacy.value;
      }
      if c.newMaxUser.Some? {
        maxUser := c.newMaxUser.value;
      }
      if c.newLocked.Some? {
        locked := c.newLocked.value;
      }
      if c.newPlatforms != [] {
        platforms := c.newPlatforms;
      }
    }

    method PermissionErrorFor(userId: int) returns (error: Option<Error>)
      ensures error == PermissionError(State(), userId)
    {
      var i := Find(userId);
      if kind == OwnerBind {
        error := if ownerUserId == userId then None else Some(OnlyCreator);
      } else {
        error := if i < |members| then None else Some(OnlyMember);
      }
    }
  }

  class SessionStore {
    var sessions: map<nat, Session>
    var issued: nat

    ghost function View(): Store
      reads this, sessions.Values
    {
      Store(map id | id in sessions :: sessions[id].State(), issued)
    }

    ghost predicate Separate()
      reads this
    {
      forall a, b :: a in sessions && b in sessions && a != b ==> sessions[a] != sessions[b]
    }

    ghost predicate Valid()
      reads this, sessions.Values
    {
      Separate() && Inv(View())
    }

    constructor ()
      ensures Valid() && View() == NEW_STORE
    {
      sessions, issued := map[], 0;
      new;
      RunKeepsInv([]);
      assert View() == NEW_STORE;
    }

    /** LeaveSessionAtIndex */
    method LeaveSessionAtIndex(userId: int, index: int)
      requires Valid()
      modifies this, sessions.Values
      ensures Separate() && sessions.Values <= old(sessions).Values && issued == old(issued)
      ensures View() == LeaveAt(old(View()), userId, index)
      ensures forall id :: id in sessions ==> id in old(sessions) && sessions[id] == old(sessions)[id]
    {
      hide Inv, Session.State, OwnerRule, RemoveAt, PlaceAt, HasAt, LeaveAt, Holder;
      ghost var s := View();
      var holder := Find(userId, index);
      LeaveAtIs(s, userId, index, holder);
      if holder.Some? {
        var session := sessions[holder.value];
        session.Shown();
        var i := session.FindAt(userId, index);
        var orphaned := session.Take(userId, i);
        if orphaned {
          sessions := sessions - {holder.value};
        }
        ghost var next := OwnerRule(s.sessions[holder.value], userId, RemoveAt(s.sessions[holder.value].members, i));
        assert View().sessions == Put(s, holder.value, next).sessions;
      }
    }

    /** The first session met in which the user holds the index. */
    method Find(userId: int, index: int) returns (holder: Option<nat>)
      ensures holder.Some? ==> holder.value in sessions && HasAt(View().sessions[holder.value].members, userId, index)
      ensures holder.None? ==> forall id :: id in sessions ==> !HasAt(View().sessions[id].members, userId, index)
    {
      hide HasAt, Session.State;
      var rest := sessions.Keys;
      while rest != {}
        invariant rest <= sessions.Keys
        invariant forall id :: id in sessions && id !in rest ==> !HasAt(sessions[id].State().members, userId, index)
      {
        var id :| id in rest;
        sessions[id].Shown();
        var i := sessions[id].FindAt(userId, index);
        if i < |sessions[id].members| {
          return Some(id);
        }
        rest := rest - {id};
      }
      holder := None;
    }

    /** HandleSessionCreate, past the parsing of its parts. */
    method Create(c: Call) returns (r: Reply)
      requires Valid() && c.Create?
      modifies this, sessions.Values
      ensures Valid() && (View(), r) == Step(old(View()), c)
    {
      hide Inv, Session.State, LeaveAt, Opening, Step;
      ghost var s := View();
      StepKeepsInv(s, c);
      CreateIs(s, c);
      if c.maxUser <= 0 || c.platforms == [] {
        return Refused(InvalidBodyParam);
      }
      if c.platform.None? {
        return Refused(NotOnline);
      }
      if c.platform.value !in c.platforms {
        return Refused(InvalidBodyParam);
      }
      r := Created(issued);
      LeaveSessionAtIndex(c.userId, c.index);
      var session := new Session(Opening(c));
      Add(session);
    }

    method Add(session: Session)
      requires Separate() && session !in sessions.Values
      modifies this
      ensures Separate() && sessions == old(sessions)[old(issued) := session]
      ensures View() == Store(old(View()).sessions[old(issued) := session.State()], old(issued) + 1)
    {
      hide Session.State;
      sessions := sessions[issued := session];
      issued := issued + 1;
      assert View().sessions == old(View()).sessions[old(issued) := session.State()];
    }

    /** HandleSessionJoin */
    method Join(c: Call) returns (r: Reply)
      requires Valid() && c.Join?
      modifies this, sessions.Values
      ensures Valid() && (View(), r) == Step(old(View()), c)
    {
      hide Inv, Session.State, LeaveAt, Place;
      ghost var s := View();
      StepKeepsInv(s, c);
      if !(0 <= c.index <= 63) {
        return Refused(InvalidBodyParam);
      }
      if c.platform.None? {
        return Refused(NotOnline);
      }
      if c.id !in sessions {
        return Refused(NotFound);
      }
      var session := sessions[c.id];
      session.Shown();
      var i := session.Find(c.userId);
      if i < |session.members| {
        if session.members[i].index != c.index {
          return Refused(AlreadyJoined);
        }
        session.Rejoin(i, c.priority, c.now);
        assert View().sessions == JoinStep(s, c).0.sessions;
        return NoContent;
      }
      if session.locked {
        return Refused(NotPermitted);
      }
      if |session.members| >= (if 0 < session.maxUser < 256 then session.maxUser else 256) {
        return Refused(Full);
      }
      JoinEnters(s, c);
      LeaveSessionAtIndex(c.userId, c.index);
      ghost var freed := View();
      var joined := sessions[c.id];
      joined.Shown();
      joined.Append(Newcomer(c));
      assert View().sessions == freed.sessions[c.id := joined.State()];
      r := NoContent;
    }

    /** HandleSessionLeave */
    method Leave(c: Call) returns (r: Reply)
      requires Valid() && c.Leave?
      modifies this, sessions.Values
      ensures Valid() && (View(), r) == Step(old(View()), c)
    {
      hide Inv, Session.State, Removal;
      ghost var s := View();
      StepKeepsInv(s, c);
      if c.id !in sessions {
        return NoContent;
      }
      var session := sessions[c.id];
      session.Shown();
      if c.target != c.userId && session.ownerUserId != c.userId {
        return Refused(NotPermitted);
      }
      var orphaned, removed := session.RemoveMemberApplyOwner(c.target);
      if orphaned {
        sessions := sessions - {c.id};
      }
      assert View().sessions == LeaveStep(s, c).0.sessions;
      r := NoContent;
    }

    /** HandleSessionDelete and HandleSessionUpdate */
    method DeleteOrUpdate(c: Call) returns (r: Reply)
      requires Valid() && (c.Delete? || c.Update?)
      modifies this, sessions.Values
      ensures Valid() && (View(), r) == Step(old(View()), c)
    {
      hide Inv, Session.State, PermissionError, Updated;
      ghost var s := View();
      StepKeepsInv(s, c);
      if c.id !in sessions {
        return Refused(NotFound);
      }
      var error := sessions[c.id].PermissionErrorFor(c.userId);
      if error.Some? {
        return Refused(error.value);
      }
      if c.Delete? {
        sessions := sessions - {c.id};
      } else {
        sessions[c.id].Update(c);
      }
      assert View().sessions == Step(s, c).0.sessions;
      r := NoContent;
    }

    /** PurgeUserFromSessions: every session is left, and those to be deleted go at the end. */
    method PurgeUserFromSessions(userId: int)
      requires Valid()
      modifies this, sessions.Values
      ensures Valid() && View() == Purged(old(View()), userId)
    {
      hide Inv, Session.State, Removal, Purged, Step;
      ghost var s := View();
      StepKeepsInv(s, Purge(userId));
      PurgeIs(s, userId);
      var toRemove: set<nat> := {};
      var rest := sessions.Keys;
      while rest != {}
        invariant rest <= sessions.Keys && sessions == old(sessions) && issued == old(issued)
        invariant forall id :: id in toRemove <==>
                    id in sessions && id !in rest && Removal(s.sessions[id], userId).None?
        invariant forall id :: id in sessions && id !in toRemove ==>
                    Some(sessions[id].State()) ==
                      if id in rest then Some(s.sessions[id]) else Removal(s.sessions[id], userId)
      {
        var id :| id in rest;
        var orphaned, removed := sessions[id].RemoveMemberApplyOwner(userId);
        rest := rest - {id};
        if orphaned {
          toRemove := toRemove + {id};
        }
      }
      sessions := sessions - toRemove;
      PurgedIs(s, userId, View().sessions);
    }
  }

  lemma PurgeIs(s: Store, userId: int)
    ensures Step(s, Purge(userId)).0 == Purged(s, userId)
  {
  }

  lemma PurgedIs(s: Store, userId: int, next: map<nat, SessionState>)
    requires forall id :: id in next ==> id in s.sessions && Removal(s.sessions[id], userId) == Some(next[id])
    requires forall id :: id in s.sessions && Removal(s.sessions[id], userId).Some? ==> id in next
    ensures Store(next, s.issued) == Purged(s, userId)
  {
    hide Removal;
  }

  lemma LeaveAtIs(s: Store, userId: int, index: int, holder: Option<nat>)
    requires Inv(s)
    requires holder.Some? ==> holder.value in s.sessions && HasAt(s.sessions[holder.value].members, userId, index)
    requires holder.None? ==> forall id :: id in s.sessions ==> !HasAt(s.sessions[id].members, userId, index)
    ensures LeaveAt(s, userId, index) ==
            if holder.None? then s
            else
              var session := s.sessions[holder.value];
              Put(s, holder.value, OwnerRule(session, userId,
                RemoveAt(session.members, FoundAt(session.members, userId, index))))
  {
    HolderIs(s, userId, index, holder);
    hide OwnerRule, Inv;
  }

  /** Nobody holds an index twice, so whichever session the walk meets is the one. */
  lemma HolderIs(s: Store, userId: int, index: int, holder: Option<nat>)
    requires Inv(s)
    requires holder.Some? ==> holder.value in s.sessions && HasAt(s.sessions[holder.value].members, userId, index)
    requires holder.None? ==> forall id :: id in s.sessions ==> !HasAt(s.sessions[id].members, userId, index)
    ensures Holder(s, userId, index) == holder
  {
    hide HasAt, SessionOk;
  }

  lemma CreateIs(s: Store, c: Call)
    requires c.Create?
    ensures Step(s, c) == CreateStep(s, c)
  {
  }

  lemma JoinEnters(s: Store, c: Call)
    requires Inv(s) && c.Join? && 0 <= c.index <= 63 && c.platform.Some? && c.id in s.sessions
    requires !Has(s.sessions[c.id].members, c.userId) && !s.sessions[c.id].locked
    requires |s.sessions[c.id].members| < Capacity(s.sessions[c.id].maxUser)
    ensures c.id in LeaveAt(s, c.userId, c.index).sessions
    ensures JoinStep(s, c) == (Admitted(LeaveAt(s, c.userId, c.index), c), NoContent)
  {
    LeaveAtEach(s, c.userId, c.index, c.id);
    hide LeaveAt, Removal, Inv;
  }
}
