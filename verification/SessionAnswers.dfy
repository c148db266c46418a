/** What the session handlers answer, in terms of the request and the stored sessions, and what the user limit
    and the lock of a session mean over every run. */
module SessionAnswers {
  import opened Common
  import opened Sessions

  predicate IsMember(s: SessionState, userId: int) {
    exists m :: m in s.members && m.userId == userId
  }

  lemma MemberIsHas(s: SessionState, userId: int)
    ensures IsMember(s, userId) <==> Has(s.members, userId)
  {
    if m :| m in s.members && m.userId == userId {
      var i :| 0 <= i < |s.members| && s.members[i] == m;
    }
  }

  /** As many as its limit says, which counts from 1 to 255; else 256. */
  predicate NoRoom(s: SessionState) {
    |s.members| >= 256 || (1 <= s.maxUser <= 255 && |s.members| >= s.maxUser)
  }

  // ---------------------------------------------------------------------------------------------
  // The answers

  /** What a join answers, each refusal in the order of the checks: a bad index, a user who is not online, a
      missing session; then a member at another index; then a lock; then no room. A member who joins again at
      its index, and anyone else when none of these holds, is accepted. */
  lemma JoinAnswers(s: Store, c: Call)
    requires Inv(s) && c.Join?
    ensures Step(s, c).1 ==
      if c.index < 0 || c.index > 63 then Refused(InvalidBodyParam)
      else if c.platform == None then Refused(NotOnline)
      else if c.id !in s.sessions then Refused(NotFound)
      else if IsMember(s.sessions[c.id], c.userId) then
        if exists m :: m in s.sessions[c.id].members && m.userId == c.userId && m.index == c.index then NoContent
        else Refused(AlreadyJoined)
      else if s.sessions[c.id].locked then Refused(NotPermitted)
      else if NoRoom(s.sessions[c.id]) then Refused(Full)
      else NoContent
  {
    hide LeaveAt, OwnerRule, IndicesFree;
    if c.id in s.sessions {
      var session := s.sessions[c.id];
      MemberIsHas(session, c.userId);
      var i := Place(session.members, c.userId, 0);
      if i < |session.members| {
        assert session.members[i] in session.members;
        assert forall m :: m in session.members && m.userId == c.userId ==> m == session.members[i];
      }
    }
  }

  /** Who gets in: a user who is not a member enters exactly when all of this holds. Then the user is a member,
      behind all the others; and whoever is refused changes nothing. */
  lemma EntersIff(s: Store, c: Call)
    requires Inv(s) && c.Join? && c.id in s.sessions && !IsMember(s.sessions[c.id], c.userId)
    ensures c.id in Step(s, c).0.sessions && IsMember(Step(s, c).0.sessions[c.id], c.userId) <==>
      0 <= c.index <= 63 && c.platform.Some? && !s.sessions[c.id].locked && !NoRoom(s.sessions[c.id])
    ensures Step(s, c).1.Refused? ==> Step(s, c).0 == s
    ensures !Step(s, c).1.Refused? ==>
      && c.platform.Some? && c.id in Step(s, c).0.sessions
      && Step(s, c).0.sessions[c.id].members == s.sessions[c.id].members
           + [Member(c.userId, c.npid, c.platform.value, c.index, c.priority, c.now)]
  {
    JoinAnswers(s, c);
    MemberIsHas(s.sessions[c.id], c.userId);
    hide Step, Inv, NoRoom, IsMember, Newcomer;
    if Step(s, c).1.Refused? {
      RefusedStays(s, c);
    } else {
      assert Enters(s, c);
      EnteringHolds(s, c);
      NewcomerIs(c);
      LastIsMember(Step(s, c).0.sessions[c.id], c.userId);
    }
  }

  lemma NewcomerIs(c: Call)
    requires c.Join? && c.platform.Some?
    ensures Newcomer(c) == Member(c.userId, c.npid, c.platform.value, c.index, c.priority, c.now)
  {
  }

  lemma LastIsMember(s: SessionState, userId: int)
    requires s.members != [] && s.members[|s.members| - 1].userId == userId
    ensures IsMember(s, userId)
  {
    assert s.members[|s.members| - 1] in s.members;
  }

  /** No refusal changes anything. */
  lemma RefusedStays(s: Store, c: Call)
    requires Step(s, c).1.Refused?
    ensures Step(s, c).0 == s
  {
    hide LeaveAt, Removal, Updated;
  }

  /** A member who joins again at its index gets the new priority and time, and nothing else changes anywhere. */
  lemma RejoinAnswers(s: Store, c: Call, i: nat)
    requires Inv(s) && c.Join? && 0 <= c.index <= 63 && c.platform.Some? && c.id in s.sessions
    requires i < |s.sessions[c.id].members|
    requires s.sessions[c.id].members[i].userId == c.userId && s.sessions[c.id].members[i].index == c.index
    ensures Step(s, c).1 == NoContent
    ensures Step(s, c).0.sessions.Keys == s.sessions.Keys && Step(s, c).0.issued == s.issued
    ensures forall id :: id in s.sessions && id != c.id ==> Step(s, c).0.sessions[id] == s.sessions[id]
    ensures var was, next := s.sessions[c.id], Step(s, c).0.sessions[c.id];
      && next.(members := was.members) == was && |next.members| == |was.members|
      && (forall j :: 0 <= j < |was.members| && j != i ==> next.members[j] == was.members[j])
      && next.members[i] == Member(c.userId, was.members[i].npid, was.members[i].platform, c.index, c.priority, c.now)
  {
    hide IndicesFree, LeaveAt;
    assert Place(s.sessions[c.id].members, c.userId, 0) == i;
  }

  /** What a creation answers, and the session it makes: the creator alone in it, as its owner. */
  lemma CreateAnswers(s: Store, c: Call)
    requires Inv(s) && c.Create?
    ensures Step(s, c).1 ==
      if c.maxUser < 1 || c.platforms == [] then Refused(InvalidBodyParam)
      else if c.platform == None then Refused(NotOnline)
      else if c.platform.value !in c.platforms then Refused(InvalidBodyParam)
      else Created(s.issued)
    ensures s.issued !in s.sessions
    ensures Step(s, c).1.Created? ==>
      && s.issued in Step(s, c).0.sessions
      && var made := Step(s, c).0.sessions[s.issued];
      && made.kind == c.kind && made.ownerUserId == c.userId && made.ownerNpid == c.npid
      && made.maxUser == c.maxUser && made.platforms == c.platforms && made.locked == c.locked
      && made.privacy == (if c.privacy != "" then c.privacy else "public")
      && made.members == [Member(c.userId, c.npid, c.platform.value, c.index, c.priority, c.now)]
  {
    hide LeaveAt, SessionOk;
  }

  /** Who may leave or remove: the member itself and the owner; leaving what is not there is no error. */
  lemma LeaveAnswers(s: Store, c: Call)
    requires Inv(s) && c.Leave?
    ensures Step(s, c).1 ==
      if c.id in s.sessions && c.target != c.userId && s.sessions[c.id].ownerUserId != c.userId
      then Refused(NotPermitted) else NoContent
    ensures Step(s, c).1 == NoContent && c.id in Step(s, c).0.sessions ==>
      !IsMember(Step(s, c).0.sessions[c.id], c.target)
  {
    if c.id in s.sessions && Step(s, c).1 == NoContent && c.id in Step(s, c).0.sessions {
      RemovalKeepsOk(s.sessions[c.id], c.target);
      MemberIsHas(Step(s, c).0.sessions[c.id], c.target);
    }
  }

  /** Who may delete and update: the owner of an owner-bind session, every member of the other kind. */
  lemma ChangeAnswers(s: Store, c: Call)
    requires c.Delete? || c.Update?
    ensures Step(s, c).1 ==
      if c.id !in s.sessions then Refused(NotFound)
      else if s.sessions[c.id].kind == OwnerBind && s.sessions[c.id].ownerUserId != c.userId then Refused(OnlyCreator)
      else if s.sessions[c.id].kind != OwnerBind && !IsMember(s.sessions[c.id], c.userId) then Refused(OnlyMember)
      else NoContent
    ensures Step(s, c).1 == NoContent && c.Delete? ==> Step(s, c).0.sessions == s.sessions - {c.id}
    ensures Step(s, c).1 == NoContent && c.Update? ==>
      && c.id in Step(s, c).0.sessions
      && var was, next := s.sessions[c.id], Step(s, c).0.sessions[c.id];
      && next.members == was.members && next.kind == was.kind && next.ownerUserId == was.ownerUserId
      && next.maxUser == (match c.newMaxUser case None => was.maxUser case Some(n) => n)
      && next.locked == (match c.newLocked case None => was.locked case Some(l) => l)
      && next.privacy == (match c.newPrivacy case None => was.privacy case Some(p) => p)
      && next.platforms == (if c.newPlatforms == [] then was.platforms else c.newPlatforms)
  {
    if c.id in s.sessions {
      MemberIsHas(s.sessions[c.id], c.userId);
    }
  }

  // ---------------------------------------------------------------------------------------------
  // The limit and the lock over every run

  predicate Updates(c: Call, id: nat) {
    c.Update? && c.id == id
  }

  /** Limit and lock stay as they are unless the session is updated. */
  lemma SettingsStay(s: Store, c: Call, id: nat)
    requires Inv(s) && id in s.sessions && id in Step(s, c).0.sessions && !Updates(c, id)
    ensures Step(s, c).0.sessions[id].maxUser == s.sessions[id].maxUser
    ensures Step(s, c).0.sessions[id].locked == s.sessions[id].locked
  {
    hide LeaveAt, SessionOk, IndicesFree, OwnerRule, Removal, Enters;
    RemovalSettings(s.sessions[id], c.userId);
    if c.Leave? {
      RemovalSettings(s.sessions[id], c.target);
    }
    if (c.Create? || c.Join?) && Enters(s, c) {
      EnteringSettings(s, c, id);
    } else if c.Create? || c.Join? {
      NotEntering(s, c);
    }
  }

  lemma RemovalSettings(s: SessionState, userId: int)
    ensures Removal(s, userId).Some? ==>
      Removal(s, userId).value.maxUser == s.maxUser && Removal(s, userId).value.locked == s.locked
  {
    hide Without, Has;
  }

  lemma EnteringSettings(s: Store, c: Call, id: nat)
    requires Inv(s) && id in s.sessions && id in Step(s, c).0.sessions && (c.Create? || c.Join?) && Enters(s, c)
    ensures Step(s, c).0.sessions[id].maxUser == s.sessions[id].maxUser
    ensures Step(s, c).0.sessions[id].locked == s.sessions[id].locked
  {
    EnteringFrees(s, c);
    LeaveAtEach(s, c.userId, c.index, id);
    RemovalSettings(s.sessions[id], c.userId);
    hide LeaveAt, SessionOk, IndicesFree, Step, Removal, Enters;
  }

  /** A creation that is refused changes nothing; nor does a join that brings nobody in, but for the member's own
      entry. */
  lemma NotEntering(s: Store, c: Call)
    requires (c.Create? || c.Join?) && !Enters(s, c)
    ensures Step(s, c).0 != s ==>
      && c.Join? && c.id in s.sessions
      && exists members :: Step(s, c).0 == Put(s, c.id, Some(s.sessions[c.id].(members := members)))
  {
    hide LeaveAt;
  }

  /** A session gains a member only from a join of one who is not a member, and at most one. */
  lemma GainsByJoining(s: Store, c: Call, id: nat)
    requires Inv(s) && id in s.sessions && id in Step(s, c).0.sessions
    ensures var was, next := s.sessions[id], Step(s, c).0.sessions[id];
      if c.Join? && c.id == id && Enters(s, c) then
        |next.members| == |was.members| + 1 && !was.locked && !NoRoom(was)
      else |next.members| <= |was.members| && forall u :: IsMember(next, u) ==> IsMember(was, u)
  {
    var was, next := s.sessions[id], Step(s, c).0.sessions[id];
    if c.Join? && c.id == id && Enters(s, c) {
      MemberIsHas(was, c.userId);
      EntersIff(s, c);
      JoinAnswers(s, c);
    } else {
      hide Step, SessionOk, IndicesFree, Enters, IsMember;
      SessionAfterStep(s, c, id);
      if gone :| TakesOut(s, c, id, gone) {
        LeavingGainsNone(was, gone);
      } else {
        SeatsGainNone(was, next);
      }
    }
  }

  lemma LeavingGainsNone(s: SessionState, gone: int)
    requires SessionOk(s) && Removal(s, gone).Some?
    ensures var next := Removal(s, gone).value;
      |next.members| <= |s.members| && forall u :: IsMember(next, u) ==> IsMember(s, u)
  {
    RemovalKeepsOk(s, gone);
    WithoutDrops(s.members, gone);
  }

  lemma SeatsGainNone(was: SessionState, next: SessionState)
    requires SameSeats(was.members, next.members)
    ensures |next.members| <= |was.members| && forall u :: IsMember(next, u) ==> IsMember(was, u)
  {
    forall u | IsMember(next, u)
      ensures IsMember(was, u)
    {
      var m :| m in next.members && m.userId == u;
      var i :| 0 <= i < |next.members| && next.members[i] == m;
      assert was.members[i] in was.members;
    }
  }

  ghost predicate WithinLimit(s: Store, id: nat) {
    id in s.sessions ==> 1 <= s.sessions[id].maxUser && (|s.sessions[id].members| <= s.sessions[id].maxUser
                                                          || s.sessions[id].maxUser > 255)
  }

  lemma StepKeepsLimit(s: Store, c: Call, id: nat)
    requires Inv(s) && WithinLimit(s, id) && !Updates(c, id)
    ensures WithinLimit(Step(s, c).0, id)
  {
    hide Step, Inv, Enters;
    if id in Step(s, c).0.sessions {
      if id in s.sessions {
        SettingsStay(s, c, id);
        GainsByJoining(s, c, id);
      } else {
        NewIsCreated(s, c, id);
        CreateAnswers(s, c);
        CreatorEnters(s, c);
      }
    }
  }

  lemma CreatorEnters(s: Store, c: Call)
    requires c.Create? && Enters(s, c)
    ensures Step(s, c).1.Created?
  {
  }

  /** Over every run: a session that no update has touched never holds more members than its limit, where the
      limit is below 256. */
  lemma {:induction false} LimitHolds(calls: seq<Call>, id: nat)
    requires forall c :: c in calls ==> !Updates(c, id)
    ensures WithinLimit(After(NEW_STORE, calls), id)
    decreases |calls|
  {
    hide Step, WithinLimit;
    if calls == [] {
      NothingStored(id);
    } else {
      var before, c := calls[..|calls| - 1], calls[|calls| - 1];
      assert c in calls && forall b :: b in before ==> b in calls;
      LimitHolds(before, id);
      RunKeepsInv(before);
      StepKeepsLimit(After(NEW_STORE, before), c, id);
    }
  }

  lemma NothingStored(id: nat)
    ensures WithinLimit(After(NEW_STORE, []), id)
  {
  }

  /** From any moment of a run on: a locked session that no update touches stays locked and gains nobody. */
  lemma {:induction false} LockedGainsNobody(s: Store, calls: seq<Call>, id: nat)
    requires Inv(s) && id in s.sessions && s.sessions[id].locked
    requires forall c :: c in calls ==> !Updates(c, id)
    ensures Inv(After(s, calls)) && After(s, calls).issued >= s.issued
    ensures id in After(s, calls).sessions ==>
      && After(s, calls).sessions[id].locked
      && forall u :: IsMember(After(s, calls).sessions[id], u) ==> IsMember(s.sessions[id], u)
    decreases |calls|
  {
    hide Step, SessionOk, IndicesFree, IsMember, Enters;
    if calls != [] {
      var before, c := calls[..|calls| - 1], calls[|calls| - 1];
      assert c in calls && forall b :: b in before ==> b in calls;
      LockedGainsNobody(s, before, id);
      var t := After(s, before);
      StepKeepsInv(t, c);
      IssuedNeverFalls(t, c);
      if id in After(s, calls).sessions {
        if id !in t.sessions {
          NewIsCreated(t, c, id);
          assert false;
        }
        SettingsStay(t, c, id);
        GainsByJoining(t, c, id);
      }
    }
  }
}
