/** What the matchmaking commands answer, in terms of the request and the server's rooms: who gets into a room,
    that a room fills up, who leaves and who kicks; and the pages and world lists of the two queries. */
module RoomAnswers {
  import opened Common
  import opened SlotMasks
  import opened Rooms
  import opened Matching

  // ---------------------------------------------------------------------------------------------
  // Joining

  predicate NameTaken(room: RoomState, npid: string) {
    exists m :: m in room.members.Values && m.npid == npid
  }

  /** Each of the two names the other neither by name nor by account. */
  predicate AtPeace(a: Member, b: Member) {
    && b.npid !in a.blockedUsers && b.userId !in a.blockedAccounts
    && a.npid !in b.blockedUsers && a.userId !in b.blockedAccounts
  }

  /** On every allow list that names anybody, on no block list, and at peace with every member. */
  predicate Welcome(room: RoomState, joiner: Member) {
    && (room.access.allowedUsers == [] || joiner.npid in room.access.allowedUsers)
    && (room.access.allowedAccounts == [] || joiner.userId in room.access.allowedAccounts)
    && joiner.npid !in room.blockedUsers && joiner.userId !in room.access.blockedAccounts
    && forall m :: m in room.members.Values ==> AtPeace(joiner, m)
  }

  lemma TakenIsHas(room: RoomState, npid: string)
    ensures NameTaken(room, npid) <==> HasNpid(room.members, npid)
  {
    if m :| m in room.members.Values && m.npid == npid {
      var id :| id in room.members && room.members[id] == m;
    }
    if HasNpid(room.members, npid) {
      var id :| id in room.members && room.members[id].npid == npid;
      assert room.members[id] in room.members.Values;
    }
  }

  lemma WelcomeIsNotKeptOut(room: RoomState, joiner: Member)
    ensures Welcome(room, joiner) <==> !KeptOut(room, joiner)
  {
    if exists id :: id in room.members && Shuns(joiner, room.members[id]) {
      var id :| id in room.members && Shuns(joiner, room.members[id]);
      assert room.members[id] in room.members.Values;
    }
    if m :| m in room.members.Values && !AtPeace(joiner, m) {
      var id :| id in room.members && room.members[id] == m;
      assert Shuns(joiner, room.members[id]);
    }
  }

  /** What a join answers, each refusal in the order of the checks; a joiner who is refused nothing enters. */
  lemma JoinAnswers(s: Server, key: string, roomId: nat, joiner: Member)
    ensures var reply := Step(s, JoinRoom(key, roomId, joiner)).1;
      if (key, roomId) !in s.rooms then reply == Refused(RoomMissing)
      else
        var room := s.rooms[(key, roomId)];
        if |room.members| >= room.maxSlot then reply == Refused(RoomFull)
        else if NameTaken(room, joiner.npid) then reply == Refused(RoomAlreadyJoined)
        else if !Welcome(room, joiner) then reply == Refused(Blocked)
        else reply.Entered? && reply.roomId == roomId
    ensures Step(s, JoinRoom(key, roomId, joiner)).1.Refused? ==> Step(s, JoinRoom(key, roomId, joiner)).0 == s
  {
    hide CountsOf, Or, OneAt, AllocId, WithMember, KeptOut, HasNpid, NameTaken, Welcome;
    if (key, roomId) in s.rooms {
      TakenIsHas(s.rooms[(key, roomId)], joiner.npid);
      WelcomeIsNotKeptOut(s.rooms[(key, roomId)], joiner);
    }
  }

  lemma EntryIsDone(s: Server, key: string, roomId: nat, joiner: Member)
    requires Step(s, JoinRoom(key, roomId, joiner)).1.Entered?
    ensures (key, roomId) in s.rooms
    ensures var room := s.rooms[(key, roomId)];
      && Join(room, joiner).Done?
      && Step(s, JoinRoom(key, roomId, joiner)) ==
           (Put(s, key, roomId, Join(room, joiner).room), Entered(roomId, AllocId(room)))
  {
    hide Join, AllocId, Put;
  }

  /** Who gets in: the answer is an entry exactly when all of this holds. Then, in a room of at most 64 slots,
      the joiner is a member under the id answered, and the other members are as they were. */
  lemma EntersIff(s: Server, key: string, roomId: nat, joiner: Member)
    requires Inv(s)
    ensures var (next, reply) := Step(s, JoinRoom(key, roomId, joiner));
      && (reply.Entered? <==>
            && (key, roomId) in s.rooms
            && var room := s.rooms[(key, roomId)];
               |room.members| < room.maxSlot && !NameTaken(room, joiner.npid) && Welcome(room, joiner))
      && (reply.Entered? && s.rooms[(key, roomId)].maxSlot <= 64 ==>
            && (key, roomId) in next.rooms
            && var before, after := s.rooms[(key, roomId)].members, next.rooms[(key, roomId)].members;
            && reply.memberId !in before && after.Keys == before.Keys + {reply.memberId}
            && after[reply.memberId] == joiner.(flagAttr := 0, memberId := reply.memberId)
            && forall id :: id in before ==> after[id] == before[id])
  {
    hide IndexOk, IdsIssued, CountsOf, AllocId, NameTaken, Welcome, Step, Join, KeptOut, HasNpid, OwnerOk, FlagOk,
         SlotsOk;
    JoinAnswers(s, key, roomId, joiner);
    if Step(s, JoinRoom(key, roomId, joiner)).1.Entered? {
      EntryIsDone(s, key, roomId, joiner);
      var room := s.rooms[(key, roomId)];
      JoinShape(room, joiner);
      if room.maxSlot <= 64 {
        JoinKeepsSlots(room, joiner);
      }
    }
  }

  /** Nothing keeps the joiner out but a full room. */
  predicate MayJoin(room: RoomState, joiner: Member) {
    !NameTaken(room, joiner.npid) && Welcome(room, joiner)
  }

  /** Two joiners of different names and at peace. */
  predicate Together(a: Member, b: Member) {
    a.npid != b.npid && AtPeace(a, b)
  }

  lemma OneMoreJoins(s: Server, key: string, roomId: nat, joiner: Member)
    requires Inv(s) && (key, roomId) in s.rooms && MayJoin(s.rooms[(key, roomId)], joiner)
    requires s.rooms[(key, roomId)].maxSlot <= 64
    requires |s.rooms[(key, roomId)].members| < s.rooms[(key, roomId)].maxSlot
    ensures var (next, reply) := Step(s, JoinRoom(key, roomId, joiner));
      && reply.Entered? && Inv(next) && (key, roomId) in next.rooms
      && var before, after := s.rooms[(key, roomId)], next.rooms[(key, roomId)];
      && after.maxSlot == before.maxSlot && |after.members| == |before.members| + 1
      && NameTaken(after, joiner.npid)
      && (forall npid :: NameTaken(before, npid) ==> NameTaken(after, npid))
      && (forall x: Member :: MayJoin(before, x) && Together(joiner, x) ==> MayJoin(after, x))
  {
    hide IndexOk, IdsIssued, RoomOk, Step, MayJoin, Together;
    JoinAnswers(s, key, roomId, joiner);
    EntersIff(s, key, roomId, joiner);
    StepKeepsInv(s, JoinRoom(key, roomId, joiner));
    var (next, reply) := Step(s, JoinRoom(key, roomId, joiner));
    var before, after := s.rooms[(key, roomId)], next.rooms[(key, roomId)];
    assert MayJoin(before, joiner);
    assert reply.Entered? by {
      MayMeans(before, joiner);
    }
    RulesStay(s, key, roomId, joiner);
    assert |after.members.Keys| == |after.members| && |before.members.Keys| == |before.members|;
    MembersGrow(before, after, joiner, reply.memberId);
  }

  lemma MayMeans(room: RoomState, joiner: Member)
    ensures MayJoin(room, joiner) <==> !NameTaken(room, joiner.npid) && Welcome(room, joiner)
  {
  }

  /** A join leaves the room's size and its lists as they are. */
  lemma RulesStay(s: Server, key: string, roomId: nat, joiner: Member)
    requires (key, roomId) in s.rooms && Step(s, JoinRoom(key, roomId, joiner)).1.Entered?
    ensures (key, roomId) in Step(s, JoinRoom(key, roomId, joiner)).0.rooms
    ensures var before, after := s.rooms[(key, roomId)], Step(s, JoinRoom(key, roomId, joiner)).0.rooms[(key, roomId)];
      after.maxSlot == before.maxSlot && after.access == before.access && after.blockedUsers == before.blockedUsers
  {
    hide CountsOf, Or, OneAt, AllocId, KeptOut, HasNpid;
  }

  lemma MembersGrow(before: RoomState, after: RoomState, joiner: Member, id: nat)
    requires after.access == before.access && after.blockedUsers == before.blockedUsers
    requires after.members.Keys == before.members.Keys + {id} && id !in before.members
    requires after.members[id] == joiner.(flagAttr := 0, memberId := id)
    requires forall x :: x in before.members ==> after.members[x] == before.members[x]
    ensures NameTaken(after, joiner.npid)
    ensures forall npid :: NameTaken(before, npid) ==> NameTaken(after, npid)
    ensures forall x: Member :: MayJoin(before, x) && Together(joiner, x) ==> MayJoin(after, x)
  {
    assert after.members[id] in after.members.Values;
    forall m | m in before.members.Values
      ensures m in after.members.Values
    {
      var x :| x in before.members && before.members[x] == m;
      assert after.members[x] == m;
    }
    forall m | m in after.members.Values
      ensures m in before.members.Values || m == joiner.(flagAttr := 0, memberId := id)
    {
      var x :| x in after.members && after.members[x] == m;
      if x != id {
        assert before.members[x] == m;
      }
    }
  }

  /** The joins of these joiners, one after the other. */
  function Joins(key: string, roomId: nat, joiners: seq<Member>): seq<Call> {
    seq(|joiners|, i requires 0 <= i < |joiners| => JoinRoom(key, roomId, joiners[i]))
  }

  ghost predicate AllTogether(room: RoomState, joiners: seq<Member>) {
    && (forall i :: 0 <= i < |joiners| ==> MayJoin(room, joiners[i]))
    && (forall i, j :: 0 <= i < j < |joiners| ==> Together(joiners[i], joiners[j]))
  }

  /** A room of at most 64 slots admits distinct joiners whom nothing keeps out until it holds as many members
      as it has slots; and then nobody any more. */
  lemma {:induction false} RoomFillsUp(s: Server, key: string, roomId: nat, joiners: seq<Member>)
    requires Inv(s) && (key, roomId) in s.rooms && s.rooms[(key, roomId)].maxSlot <= 64
    requires AllTogether(s.rooms[(key, roomId)], joiners)
    requires |s.rooms[(key, roomId)].members| + |joiners| <= s.rooms[(key, roomId)].maxSlot
    ensures var next := After(s, Joins(key, roomId, joiners));
      && Inv(next) && (key, roomId) in next.rooms
      && var before, after := s.rooms[(key, roomId)], next.rooms[(key, roomId)];
      && after.maxSlot == before.maxSlot && |after.members| == |before.members| + |joiners|
      && (forall i :: 0 <= i < |joiners| ==> NameTaken(after, joiners[i].npid))
      && (forall x: Member :: MayJoin(before, x) && (forall i :: 0 <= i < |joiners| ==> Together(joiners[i], x)) ==>
            MayJoin(after, x))
      && (|after.members| == after.maxSlot ==>
            forall x :: Step(next, JoinRoom(key, roomId, x)).1 == Refused(RoomFull))
    decreases |joiners|
  {
    hide Inv, Step, MayJoin, Together, NameTaken;
    if joiners != [] {
      var earlier, last := joiners[..|joiners| - 1], joiners[|joiners| - 1];
      assert Joins(key, roomId, joiners)[..|joiners| - 1] == Joins(key, roomId, earlier);
      RoomFillsUp(s, key, roomId, earlier);
      var t := After(s, Joins(key, roomId, earlier));
      assert MayJoin(s.rooms[(key, roomId)], last) && forall i :: 0 <= i < |earlier| ==> Together(earlier[i], last);
      OneMoreJoins(t, key, roomId, last);
      assert After(s, Joins(key, roomId, joiners)) == Step(t, JoinRoom(key, roomId, last)).0;
    }
    forall x
      ensures var next := After(s, Joins(key, roomId, joiners));
        (key, roomId) in next.rooms && |next.rooms[(key, roomId)].members| == next.rooms[(key, roomId)].maxSlot ==>
          Step(next, JoinRoom(key, roomId, x)).1 == Refused(RoomFull)
    {
      JoinAnswers(After(s, Joins(key, roomId, joiners)), key, roomId, x);
    }
  }

  // ---------------------------------------------------------------------------------------------
  // Creating, leaving and kicking

  /** A creation is always answered with a fresh room: of the size asked for, at least one slot, under the rules
      asked for, and the creator its only member and owner. */
  lemma CreateAnswers(s: Server, key: string, creation: Creation, creator: Member)
    requires Inv(s)
    ensures var (next, reply) := Step(s, CreateRoom(key, creation, creator));
      && reply == Entered(s.nextRoomId, 17) && (key, s.nextRoomId) !in s.rooms
      && (key, s.nextRoomId) in next.rooms
      && var room := next.rooms[(key, s.nextRoomId)];
      && (1 <= creation.maxSlots < 0x1_0000 ==> room.maxSlot == creation.maxSlots)
      && (creation.maxSlots == 0 ==> room.maxSlot == 1)
      && room.worldId == creation.worldId && room.lobbyId == creation.lobbyId && room.groups == creation.groups
      && room.access == creation.access && room.blockedUsers == creation.blockedUsers
      && room.passwdSlotMask == creation.passwdSlotMask
      && (forall i :: HasBit(room.flagAttr, i) <==> HasBit(creation.flags, i) && i != FULL_BIT)
      && room.ownerMemberId == 17 && room.members.Keys == {17} && room.members[17].npid == creator.npid
  {
    hide IndexOk, RoomOk, HasBit, AndNot, OneAt, CountsOf;
    CreatedOk(creation, creator);
    assert LowestFree(map[], 1) == 1;
    forall i
      ensures HasBit(AndNot(creation.flags, OneAt(FULL_BIT)), i) <==> HasBit(creation.flags, i) && i != FULL_BIT
    {
      FlagBits(creation.flags, FULL_BIT, i);
    }
  }

  /** Only a member leaves; then nobody of that name is in the room, which ends exactly with its last member. */
  lemma LeaveAnswers(s: Server, key: string, roomId: nat, npid: string, hint: nat)
    requires Inv(s)
    ensures var (next, reply) := Step(s, LeaveRoom(key, roomId, npid, hint));
      if (key, roomId) !in s.rooms || !NameTaken(s.rooms[(key, roomId)], npid) then
        reply == Refused(RoomMissing) && next == s
      else
        && reply == Accepted
        && ((key, roomId) !in next.rooms <==> |s.rooms[(key, roomId)].members| == 1)
        && ((key, roomId) in next.rooms ==>
              && !NameTaken(next.rooms[(key, roomId)], npid)
              && |next.rooms[(key, roomId)].members| == |s.rooms[(key, roomId)].members| - 1)
  {
    hide IndexOk, IdsIssued, RoomOk, NameTaken, HasNpid, Step, Leave;
    if (key, roomId) in s.rooms {
      TakenIsHas(s.rooms[(key, roomId)], npid);
    }
    LeaveIs(s, key, roomId, npid, hint);
    if (key, roomId) in s.rooms && NameTaken(s.rooms[(key, roomId)], npid) {
      var room := s.rooms[(key, roomId)];
      var id := MemberNamed(room.members, npid).value;
      LeftWithout(room, id, Heir(room.members, id, hint));
    }
  }

  lemma LeaveIs(s: Server, key: string, roomId: nat, npid: string, hint: nat)
    ensures var step := Step(s, LeaveRoom(key, roomId, npid, hint));
      if (key, roomId) !in s.rooms || MemberNamed(s.rooms[(key, roomId)].members, npid).None? then
        step == (s, Refused(RoomMissing))
      else
        var room := s.rooms[(key, roomId)];
        var id := MemberNamed(room.members, npid).value;
        match Leave(room, id, Heir(room.members, id, hint))
        case Done(left) => step == (Put(s, key, roomId, left), Accepted)
        case _ => step.1 == Accepted && step.0.rooms == s.rooms - {(key, roomId)}
  {
    hide Leave, HasNpid;
  }

  lemma LeftWithout(room: RoomState, id: nat, heir: nat)
    requires RoomOk(room) && id in room.members
    requires room.members.Keys != {id} ==> heir in room.members && heir != id
    ensures Leave(room, id, heir).Done? <==> |room.members| != 1
    ensures Leave(room, id, heir).Done? ==>
      var left := Leave(room, id, heir).room;
      !NameTaken(left, room.members[id].npid) && |left.members| == |room.members| - 1
  {
    hide Leave, RoomExact, Keyed, CountsOf;
    assert |room.members.Keys| == |room.members|;
    OneMember(room.members.Keys, id);
    LeaveOk(room, id, heir);
    if room.members.Keys != {id} {
      LeaveEffect(room, id, heir);
      var left := Leave(room, id, heir).room;
      assert |left.members.Keys| == |left.members|;
      TakenIsHas(left, room.members[id].npid);
    }
  }

  lemma OneMember(ids: set<nat>, id: nat)
    requires id in ids
    ensures |ids| == 1 <==> ids == {id}
  {
    assert |ids - {id}| == |ids| - 1;
    if |ids| == 1 {
      assert ids - {id} == {};
    }
  }

  /** What a kick answers: only the owner kicks, nobody kicks itself, and only a member is kicked. Then the target
      is gone, every other member is as it was, and the target's name is barred exactly if asked or barred before. */
  lemma KickAnswers(s: Server, key: string, roomId: nat, npid: string, target: nat, block: bool)
    requires Inv(s)
    ensures var (next, reply) := Step(s, KickoutRoomMember(key, roomId, npid, target, block));
      if (key, roomId) !in s.rooms || !NameTaken(s.rooms[(key, roomId)], npid) then reply == Refused(RoomMissing)
      else
        var room := s.rooms[(key, roomId)];
        forall id :: id in room.members && room.members[id].npid == npid ==>
          if id != room.ownerMemberId then reply == Refused(Unauthorized)
          else if target == 0 || target == id then reply == Refused(InvalidInput)
          else if target !in room.members then reply == Refused(NotFound)
          else
            && reply == Accepted && (key, roomId) in next.rooms
            && var after := next.rooms[(key, roomId)];
            && after.members == room.members - {target}
            && forall name :: name in after.blockedUsers <==>
                 name in room.blockedUsers || (block && name == room.members[target].npid)
    ensures Step(s, KickoutRoomMember(key, roomId, npid, target, block)).1.Refused? ==>
      Step(s, KickoutRoomMember(key, roomId, npid, target, block)).0 == s
  {
    hide IndexOk, IdsIssued, RoomExact, Step, Kick, HasNpid, NameTaken, Keyed;
    KickIs(s, key, roomId, npid, target, block);
    if (key, roomId) in s.rooms {
      var room := s.rooms[(key, roomId)];
      TakenIsHas(room, npid);
      forall id | id in room.members
        ensures KickOutcome(room, id, target, block, Kick(room, id, target, block))
      {
        KickSays(room, id, target, block);
      }
    }
  }

  lemma KickIs(s: Server, key: string, roomId: nat, npid: string, target: nat, block: bool)
    ensures var step := Step(s, KickoutRoomMember(key, roomId, npid, target, block));
      if (key, roomId) !in s.rooms || MemberNamed(s.rooms[(key, roomId)].members, npid).None? then
        step == (s, Refused(RoomMissing))
      else
        match Kick(s.rooms[(key, roomId)], MemberNamed(s.rooms[(key, roomId)].members, npid).value, target, block)
        case Done(left) => step == (Put(s, key, roomId, left), Accepted)
        case Failed(error) => step == (s, Refused(error))
        case Gone => step == (s, Accepted)
  {
    hide Kick, HasNpid, Put;
  }

  /** What becomes of a room when one of its members asks for the kick. */
  ghost predicate KickOutcome(room: RoomState, id: nat, target: nat, block: bool, outcome: Outcome) {
    if id != room.ownerMemberId then outcome == Failed(Unauthorized)
    else if target == 0 || target == id then outcome == Failed(InvalidInput)
    else if target !in room.members then outcome == Failed(NotFound)
    else
      && outcome.Done? && outcome.room.members == room.members - {target}
      && forall name :: name in outcome.room.blockedUsers <==>
           name in room.blockedUsers || (block && name == room.members[target].npid)
  }

  lemma KickSays(room: RoomState, id: nat, target: nat, block: bool)
    requires id in room.members
    ensures KickOutcome(room, id, target, block, Kick(room, id, target, block))
  {
    hide CountsOf, AndNot, OneAt, DropAll;
  }

  /** Whom a room passes to when its owner leaves: the first in the line of succession who stays, if that is not
      id 0; else the member the hash table lists. */
  lemma HeirIs(room: RoomState, heir: nat)
    requires RoomOk(room) && room.ownerMemberId in room.members && room.members.Keys != {room.ownerMemberId}
    requires heir in room.members && heir != room.ownerMemberId
    ensures Leave(room, room.ownerMemberId, heir).Done?
    ensures var line, stay := room.ownerSuccession, room.members.Keys - {room.ownerMemberId};
      var next := Leave(room, room.ownerMemberId, heir).room;
      && ((forall i :: 0 <= i < |line| ==> line[i] !in stay) ==> next.ownerMemberId == heir)
      && forall i :: 0 <= i < |line| && line[i] in stay && (forall j :: 0 <= j < i ==> line[j] !in stay) ==>
           next.ownerMemberId == if line[i] == 0 then heir else line[i]
  {
    hide HasBit, Or, AndNot, OneAt, CountsOf, Successor, DropAll, SlotsOk, DistinctNpids, Keyed;
    var owner := room.ownerMemberId;
    var stay := room.members - {owner};
    LineWithout(room.ownerSuccession, owner, stay);
    assert stay.Keys == room.members.Keys - {owner};
    forall i | 0 <= i < |room.ownerSuccession| && room.ownerSuccession[i] in stay
               && (forall j :: 0 <= j < i ==> room.ownerSuccession[j] !in stay)
      ensures Successor(DropAll(room.ownerSuccession, owner), stay).0 == Some(room.ownerSuccession[i])
    {
      FirstSuccessor(room.ownerSuccession, stay, i);
    }
    if forall i :: 0 <= i < |room.ownerSuccession| ==> room.ownerSuccession[i] !in stay {
      NoSuccessor(room.ownerSuccession, stay);
    }
  }

  /** Dropping one who does not stay from the line changes nothing about who comes first. */
  lemma {:induction false} LineWithout(line: seq<nat>, gone: nat, stay: Members)
    requires gone !in stay
    ensures Successor(DropAll(line, gone), stay).0 == Successor(line, stay).0
    decreases |line|
  {
    if line != [] {
      LineWithout(line[1..], gone, stay);
      if line[0] != gone {
        assert DropAll(line, gone) == [line[0]] + DropAll(line[1..], gone);
      } else {
        assert DropAll(line, gone) == DropAll(line[1..], gone);
      }
    }
  }

  lemma {:induction false} FirstSuccessor(line: seq<nat>, stay: Members, i: nat)
    requires i < |line| && line[i] in stay && forall j :: 0 <= j < i ==> line[j] !in stay
    ensures Successor(line, stay).0 == Some(line[i])
    decreases i
  {
    if i > 0 {
      FirstSuccessor(line[1..], stay, i - 1);
    }
  }

  lemma {:induction false} NoSuccessor(line: seq<nat>, stay: Members)
    requires forall i :: 0 <= i < |line| ==> line[i] !in stay
    ensures Successor(line, stay).0 == None
    decreases |line|
  {
    if line != [] {
      NoSuccessor(line[1..], stay);
    }
  }

  /** What a change of room data does: nobody comes or goes, the flags are set where filtered but for FULL, and a new
      mask makes other slots private. */
  lemma SetDataAnswers(s: Server, key: string, roomId: nat, flagFilter: nat, flags: nat, mask: Option<Mask>)
    ensures var (next, reply) := Step(s, SetRoomDataInternal(key, roomId, flagFilter, flags, mask));
      if (key, roomId) !in s.rooms then reply == Refused(RoomMissing) && next == s
      else
        && reply == Accepted && next.rooms.Keys == s.rooms.Keys
        && (forall k :: k in s.rooms && k != (key, roomId) ==> next.rooms[k] == s.rooms[k])
        && var room, after := s.rooms[(key, roomId)], next.rooms[(key, roomId)];
        && after.(flagAttr := room.flagAttr, passwdSlotMask := room.passwdSlotMask, counts := room.counts) == room
        && after.passwdSlotMask == (match mask case None => room.passwdSlotMask case Some(m) => m)
        && (mask.None? ==> after.counts == room.counts) && (mask.Some? ==> after.counts == CountsOf(after))
        && forall i :: HasBit(after.flagAttr, i) <==>
             if HasBit(flagFilter, i) && i != 29 then HasBit(flags, i) else HasBit(room.flagAttr, i)
  {
    hide HasBit, Or, And, AndNot, OneAt, CountsOf;
    if (key, roomId) in s.rooms {
      var room := s.rooms[(key, roomId)];
      forall i
        ensures HasBit(SetInternal(room, flagFilter, flags, mask).flagAttr, i) <==>
                if HasBit(flagFilter, i) && i != 29 then HasBit(flags, i) else HasBit(room.flagAttr, i)
      {
        SetInternalFlags(room, flagFilter, flags, mask, i);
      }
      CountsRefreshed(room, flagFilter, flags, mask);
    }
  }

  lemma CountsRefreshed(room: RoomState, flagFilter: nat, flags: nat, mask: Option<Mask>)
    ensures var after := SetInternal(room, flagFilter, flags, mask);
      mask.Some? ==> after.counts == CountsOf(after)
  {
    hide Or, And, AndNot, OneAt, Split, PrivateBits, JoinedBits, Below;
  }

  /** Which slots are private: those of the mask, where it names any of the room's; else those of the groups with a
      password. And the counters of private slots count them, all and those nobody has. */
  lemma PrivateSlotsAre(room: RoomState, i: nat)
    ensures var n := Min(room.maxSlot, 64);
      i in PrivateBits(room.passwdSlotMask, room.groups, room.maxSlot) <==>
        && i < n
        && if exists j: nat :: j < n && j in Bits(room.passwdSlotMask) then i in Bits(room.passwdSlotMask)
           else exists g: nat ::
             g < |room.groups| && InGroup(room.groups, room.maxSlot, g, i) && room.groups[g].withPassword
    ensures CountsOf(room).privateSlots == |PrivateBits(room.passwdSlotMask, room.groups, room.maxSlot)|
    ensures CountsOf(room).openPrivateSlots ==
      |PrivateBits(room.passwdSlotMask, room.groups, room.maxSlot) - JoinedBits(room.members)|
  {
    hide Bits, Below, InGroup, JoinedBits;
    var n := Min(room.maxSlot, 64);
    var masked := Bits(room.passwdSlotMask) * Below(n);
    assert masked != {} <==> exists j: nat :: j < n && j in Bits(room.passwdSlotMask) by {
      if j: nat :| j < n && j in Bits(room.passwdSlotMask) {
        assert j in masked;
      }
    }
  }

  /** The bits the protocol gives to the two flags. */
  lemma FlagValues()
    ensures OneAt(FULL_BIT) == 0x2000_0000 && OneAt(OWNER_BIT) == 0x8000_0000
  {
    assert OneAt(13) == 0x2000 && OneAt(15) == 0x8000;
    OneAt16();
    OneAtAdds(16, 13);
    OneAtAdds(16, 15);
  }

  // ---------------------------------------------------------------------------------------------
  // The two queries

  /** Where a room search looks: among the rooms of the world named; without one, among those of the lobby named that
      stand in no world; without either, among all rooms of the title. */
  lemma SoughtIs(s: Server, key: string, worldId: nat, lobbyId: nat, roomId: nat)
    ensures Sought(s, key, worldId, lobbyId, roomId) <==>
      && (key, roomId) in s.rooms
      && var room := s.rooms[(key, roomId)];
      && (worldId > 0 ==> room.worldId == worldId)
      && (worldId == 0 && lobbyId > 0 ==> room.worldId == 0 && room.lobbyId == lobbyId)
  {
  }

  /** Turning pages of the same size from the first to past the end. */
  function AllPages(matches: seq<nat>, start: nat, size: nat): seq<nat>
    requires 1 <= start && 1 <= size <= 20
    decreases |matches| + 1 - Min(start, |matches| + 1)
  {
    if start > |matches| then [] else Page(matches, start, size) + AllPages(matches, start + size, size)
  }

  /** The pages, one after the other, are all matches from the start on: none is skipped and none shown twice. */
  lemma {:induction false} PagesCoverAll(matches: seq<nat>, start: nat, size: nat)
    requires 1 <= start && 1 <= size <= 20
    ensures start <= |matches| ==> AllPages(matches, start, size) == matches[start - 1..]
    ensures start > |matches| ==> AllPages(matches, start, size) == []
    decreases |matches| + 1 - Min(start, |matches| + 1)
  {
    if start <= |matches| {
      PagesCoverAll(matches, start + size, size);
      var next := Min(start - 1 + size, |matches|);
      assert matches[start - 1..] == matches[start - 1..next] + matches[next..];
    }
  }

  /** A page holds at most 20, whatever is asked for; no size and a size too large mean 20, place 0 means the first. */
  lemma PageSizes(matches: seq<nat>, start: nat, size: nat)
    ensures |Page(matches, start, size)| <= 20 && (size > 0 ==> |Page(matches, start, size)| <= size)
    ensures size == 0 || size > 20 ==> Page(matches, start, size) == Page(matches, start, 20)
    ensures Page(matches, 0, size) == Page(matches, 1, size)
  {
  }

  /** The worlds of a configuration come in order, each by itself: (OneWorld) those of the server asked for, or of
      all servers for server 0. */
  lemma {:induction false} WorldsInOrder(a: seq<WorldConfig>, b: seq<WorldConfig>, serverId: nat)
    ensures WorldsOf(a + b, serverId) == WorldsOf(a, serverId) + WorldsOf(b, serverId)
    decreases |b|
  {
    hide WorldsOf;
    if b == [] {
      assert a + b == a;
      NoWorlds(serverId);
    } else {
      var earlier, last := b[..|b| - 1], b[|b| - 1];
      WorldsInOrder(a, earlier, serverId);
      assert b == earlier + [last];
      LastWorld(earlier, last, serverId);
      assert a + b == (a + earlier) + [last];
      LastWorld(a + earlier, last, serverId);
    }
  }

  lemma NoWorlds(serverId: nat)
    ensures WorldsOf([], serverId) == []
  {
  }

  lemma LastWorld(earlier: seq<WorldConfig>, last: WorldConfig, serverId: nat)
    ensures WorldsOf(earlier + [last], serverId) ==
            WorldsOf(earlier, serverId) + if serverId == 0 || serverId == last.serverId then [last.worldId] else []
  {
    assert (earlier + [last])[..|earlier|] == earlier;
  }

  lemma OneWorld(c: WorldConfig, serverId: nat)
    ensures WorldsOf([c], serverId) == if serverId == 0 || serverId == c.serverId then [c.worldId] else []
  {
    assert [] + [c] == [c];
    LastWorld([], c, serverId);
    NoWorlds(serverId);
  }

  /** The seats taken in a set of rooms: room and member, one by one. */
  function Seated(s: Server, key: string, roomIds: set<nat>): set<(nat, nat)> {
    set r, id | r in roomIds && (key, r) in s.rooms && id in s.rooms[(key, r)].members :: (r, id)
  }

  lemma OneRoomSeats(s: Server, key: string, r: nat)
    ensures |Seated(s, key, {r})| == Population(s, key, r)
  {
    if (key, r) in s.rooms {
      var ids := s.rooms[(key, r)].members.Keys;
      assert |ids| == Population(s, key, r);
      PairedSize(r, ids);
      assert Seated(s, key, {r}) == Paired(r, ids);
    } else {
      assert Seated(s, key, {r}) == {};
    }
  }

  function Paired(r: nat, ids: set<nat>): set<(nat, nat)> {
    set id | id in ids :: (r, id)
  }

  lemma {:induction false} PairedSize(r: nat, ids: set<nat>)
    ensures |Paired(r, ids)| == |ids|
    decreases ids
  {
    if ids != {} {
      var id :| id in ids;
      PairedSize(r, ids - {id});
      assert Paired(r, ids) == Paired(r, ids - {id}) + {(r, id)};
    }
  }

  lemma {:induction false} SeatsAddUp(s: Server, key: string, roomIds: set<nat>)
    ensures MembersIn(s, key, roomIds) == |Seated(s, key, roomIds)|
    decreases roomIds
  {
    hide Population, Seated;
    if roomIds == {} {
      NoneSeated(s, key);
    } else {
      var r :| r in roomIds && MembersIn(s, key, roomIds) == Population(s, key, r) + MembersIn(s, key, roomIds - {r});
      SeatsAddUp(s, key, roomIds - {r});
      OneRoomSeats(s, key, r);
      SeatsSplit(s, key, roomIds, r);
    }
  }

  lemma NoneSeated(s: Server, key: string)
    ensures Seated(s, key, {}) == {}
  {
  }

  lemma SeatsSplit(s: Server, key: string, roomIds: set<nat>, r: nat)
    requires r in roomIds
    ensures |Seated(s, key, roomIds)| == |Seated(s, key, {r})| + |Seated(s, key, roomIds - {r})|
  {
    var all, one, others := Seated(s, key, roomIds), Seated(s, key, {r}), Seated(s, key, roomIds - {r});
    assert forall p :: p in all <==> p in one || p in others;
    assert forall p :: p in one ==> p.0 == r;
    assert forall p :: p in others ==> p.0 != r;
    assert all == one + others && one !! others;
  }

  /** What the row of a world tells: the rooms of the title that stand in it, and the members seated in them. */
  lemma WorldRow(s: Server, key: string, worldId: nat)
    requires worldId > 0
    ensures var here := set k | k in s.rooms && k.0 == key && s.rooms[k].worldId == worldId :: k.1;
      Told(s, key, worldId) == World(worldId, |here|, |Seated(s, key, here)|)
  {
    hide MembersIn;
    var here := set k | k in s.rooms && k.0 == key && s.rooms[k].worldId == worldId :: k.1;
    assert here == RoomsAt(s, key, worldId);
    SeatsAddUp(s, key, here);
  }
}
